/** pkg/sandbox/api_snapshot.go, traverseTreeNonRecursive: a breadth-first listing of a tree fetched one
    directory at a time. */
module TreeListing {
  import opened Text

  datatype Entry = Entry(path: string, isTree: bool, sha: string, mode: string)

  datatype Tree = Tree(entries: seq<Entry>, truncated: bool)

  /** What GetTree answers for each object name; a name it does not hold fails to be fetched. */
  type Trees = map<string, Tree>

  datatype Item = Item(sha: string, prefix: string, depth: nat)

  datatype Error = TooDeep(prefix: string) | FetchFailed(prefix: string) | Incomplete(prefix: string) | TooManyFiles

  datatype Result = Listed(entries: seq<Entry>) | Failed(error: Error)

  function FullPath(prefix: string, path: string): string {
    if prefix != "" then prefix + "/" + path else path
  }

  function Placed(item: Item, e: Entry): Entry {
    e.(path := FullPath(item.prefix, e.path))
  }

  function Child(item: Item, e: Entry): Item {
    Item(e.sha, FullPath(item.prefix, e.path), item.depth + 1)
  }

  // ----- The recursive listing -----

  /** The directory itself cannot be listed. */
  predicate Unlistable(trees: Trees, item: Item, maxDepth: nat) {
    item.depth > maxDepth || item.sha !in trees || trees[item.sha].truncated
  }

  function Left(item: Item, maxDepth: nat): nat {
    if item.depth > maxDepth then 0 else maxDepth - item.depth + 1
  }

  /** The files under a directory, depth first; a directory that cannot be listed shows none. */
  function Listing(trees: Trees, item: Item, maxDepth: nat): seq<Entry>
    decreases Left(item, maxDepth), 1, 0
  {
    if Unlistable(trees, item, maxDepth) then [] else EntriesListing(trees, item, trees[item.sha].entries, maxDepth)
  }

  function EntriesListing(trees: Trees, item: Item, es: seq<Entry>, maxDepth: nat): seq<Entry>
    requires item.depth <= maxDepth
    decreases Left(item, maxDepth), 0, |es|
  {
    if es == [] then []
    else
      var e := es[|es| - 1];
      EntriesListing(trees, item, es[..|es| - 1], maxDepth)
      + if e.isTree then Listing(trees, Child(item, e), maxDepth) else [Placed(item, e)]
  }

  /** Some directory under this one cannot be listed. */
  predicate Broken(trees: Trees, item: Item, maxDepth: nat)
    decreases Left(item, maxDepth), 1, 0
  {
    Unlistable(trees, item, maxDepth) || EntriesBroken(trees, item, trees[item.sha].entries, maxDepth)
  }

  predicate EntriesBroken(trees: Trees, item: Item, es: seq<Entry>, maxDepth: nat)
    requires item.depth <= maxDepth
    decreases Left(item, maxDepth), 0, |es|
  {
    es != [] &&
    (|| EntriesBroken(trees, item, es[..|es| - 1], maxDepth)
     || (es[|es| - 1].isTree && Broken(trees, Child(item, es[|es| - 1]), maxDepth)))
  }

  /** The number of directories a queue item stands for. */
  function Size(trees: Trees, item: Item, maxDepth: nat): nat
    decreases Left(item, maxDepth), 1, 0
  {
    1 + if Unlistable(trees, item, maxDepth) then 0 else EntriesSize(trees, item, trees[item.sha].entries, maxDepth)
  }

  function EntriesSize(trees: Trees, item: Item, es: seq<Entry>, maxDepth: nat): nat
    requires item.depth <= maxDepth
    decreases Left(item, maxDepth), 0, |es|
  {
    if es == [] then 0
    else
      EntriesSize(trees, item, es[..|es| - 1], maxDepth)
      + if es[|es| - 1].isTree then Size(trees, Child(item, es[|es| - 1]), maxDepth) else 0
  }

  // ----- What a queue stands for -----

  function QueueListing(trees: Trees, queue: seq<Item>, maxDepth: nat): multiset<Entry> {
    if queue == [] then multiset{}
    else QueueListing(trees, queue[..|queue| - 1], maxDepth) + multiset(Listing(trees, queue[|queue| - 1], maxDepth))
  }

  predicate QueueBroken(trees: Trees, queue: seq<Item>, maxDepth: nat) {
    exists i :: 0 <= i < |queue| && Broken(trees, queue[i], maxDepth)
  }

  function QueueSize(trees: Trees, queue: seq<Item>, maxDepth: nat): nat {
    if queue == [] then 0
    else QueueSize(trees, queue[..|queue| - 1], maxDepth) + Size(trees, queue[|queue| - 1], maxDepth)
  }

  function Children(item: Item, es: seq<Entry>): seq<Item> {
    if es == [] then []
    else if es[|es| - 1].isTree then Children(item, es[..|es| - 1]) + [Child(item, es[|es| - 1])]
    else Children(item, es[..|es| - 1])
  }

  function Files(item: Item, es: seq<Entry>): seq<Entry> {
    if es == [] then []
    else if es[|es| - 1].isTree then Files(item, es[..|es| - 1])
    else Files(item, es[..|es| - 1]) + [Placed(item, es[|es| - 1])]
  }

  lemma {:induction false} QueueListingConcat(trees: Trees, a: seq<Item>, b: seq<Item>, maxDepth: nat)
    ensures QueueListing(trees, a + b, maxDepth) == QueueListing(trees, a, maxDepth) + QueueListing(trees, b, maxDepth)
  {
    hide Listing;
    if b == [] {
      assert a + b == a;
    } else {
      QueueListingConcat(trees, a, b[..|b| - 1], maxDepth);
      assert (a + b)[..|a + b| - 1] == a + b[..|b| - 1];
    }
  }

  lemma {:induction false} QueueSizeConcat(trees: Trees, a: seq<Item>, b: seq<Item>, maxDepth: nat)
    ensures QueueSize(trees, a + b, maxDepth) == QueueSize(trees, a, maxDepth) + QueueSize(trees, b, maxDepth)
  {
    hide Size;
    if b == [] {
      assert a + b == a;
    } else {
      QueueSizeConcat(trees, a, b[..|b| - 1], maxDepth);
      assert (a + b)[..|a + b| - 1] == a + b[..|b| - 1];
    }
  }

  lemma QueueBrokenConcat(trees: Trees, a: seq<Item>, b: seq<Item>, maxDepth: nat)
    ensures QueueBroken(trees, a + b, maxDepth) <==> QueueBroken(trees, a, maxDepth) || QueueBroken(trees, b, maxDepth)
  {
    hide Broken;
    if QueueBroken(trees, a, maxDepth) {
      var i :| 0 <= i < |a| && Broken(trees, a[i], maxDepth);
      assert (a + b)[i] == a[i];
    } else if QueueBroken(trees, b, maxDepth) {
      var i :| 0 <= i < |b| && Broken(trees, b[i], maxDepth);
      assert (a + b)[|a| + i] == b[i];
    }
  }

  lemma BrokenSnoc(trees: Trees, queue: seq<Item>, item: Item, maxDepth: nat)
    ensures QueueBroken(trees, queue + [item], maxDepth) <==>
            QueueBroken(trees, queue, maxDepth) || Broken(trees, item, maxDepth)
  {
    hide Broken;
    var longer := queue + [item];
    assert longer[|queue|] == item && forall i :: 0 <= i < |queue| ==> longer[i] == queue[i];
  }

  /** A queue of one item. */
  lemma QueueOne(trees: Trees, item: Item, maxDepth: nat)
    ensures QueueListing(trees, [item], maxDepth) == multiset(Listing(trees, item, maxDepth))
    ensures QueueSize(trees, [item], maxDepth) == Size(trees, item, maxDepth)
    ensures QueueBroken(trees, [item], maxDepth) <==> Broken(trees, item, maxDepth)
  {
    hide Listing, Size, Broken;
    assert [item][..0] == [];
    BrokenSnoc(trees, [], item, maxDepth);
    assert [] + [item] == [item];
  }

  /** Listing a directory is listing its files and queueing its subdirectories. */
  lemma {:induction false} ExpandListing(trees: Trees, item: Item, es: seq<Entry>, maxDepth: nat)
    requires item.depth <= maxDepth
    ensures multiset(EntriesListing(trees, item, es, maxDepth))
         == multiset(Files(item, es)) + QueueListing(trees, Children(item, es), maxDepth)
  {
    if es != [] {
      var e := es[|es| - 1];
      ExpandListing(trees, item, es[..|es| - 1], maxDepth);
      if e.isTree {
        QueueListingConcat(trees, Children(item, es[..|es| - 1]), [Child(item, e)], maxDepth);
        QueueOne(trees, Child(item, e), maxDepth);
        hide Listing, QueueListing;
        assert Children(item, es) == Children(item, es[..|es| - 1]) + [Child(item, e)];
      }
    }
  }

  lemma {:induction false} ExpandSize(trees: Trees, item: Item, es: seq<Entry>, maxDepth: nat)
    requires item.depth <= maxDepth
    ensures EntriesSize(trees, item, es, maxDepth) == QueueSize(trees, Children(item, es), maxDepth)
  {
    if es != [] {
      var e := es[|es| - 1];
      ExpandSize(trees, item, es[..|es| - 1], maxDepth);
      if e.isTree {
        QueueSizeConcat(trees, Children(item, es[..|es| - 1]), [Child(item, e)], maxDepth);
        QueueOne(trees, Child(item, e), maxDepth);
        hide Size, QueueSize;
      }
    }
  }

  lemma {:induction false} ExpandBroken(trees: Trees, item: Item, es: seq<Entry>, maxDepth: nat)
    requires item.depth <= maxDepth
    ensures EntriesBroken(trees, item, es, maxDepth) <==> QueueBroken(trees, Children(item, es), maxDepth)
  {
    if es != [] {
      var e := es[|es| - 1];
      ExpandBroken(trees, item, es[..|es| - 1], maxDepth);
      if e.isTree {
        BrokenSnoc(trees, Children(item, es[..|es| - 1]), Child(item, e), maxDepth);
        hide Broken, QueueBroken;
      }
    }
  }

  /** Taking a listable directory from the queue and queueing its subdirectories keeps what the queue stands
      for, and the number of directories falls by one. */
  lemma PopKeeps(trees: Trees, queue: seq<Item>, maxDepth: nat)
    requires queue != [] && !Unlistable(trees, queue[0], maxDepth)
    ensures var item := queue[0]; var es := trees[item.sha].entries; var next := queue[1..] + Children(item, es);
      && QueueListing(trees, queue, maxDepth) == multiset(Files(item, es)) + QueueListing(trees, next, maxDepth)
      && QueueSize(trees, next, maxDepth) + 1 == QueueSize(trees, queue, maxDepth)
      && (QueueBroken(trees, next, maxDepth) <==> QueueBroken(trees, queue, maxDepth))
  {
    var item := queue[0];
    var es := trees[item.sha].entries;
    assert queue == [item] + queue[1..];
    assert Listing(trees, item, maxDepth) == EntriesListing(trees, item, es, maxDepth);
    assert Size(trees, item, maxDepth) == 1 + EntriesSize(trees, item, es, maxDepth);
    assert Broken(trees, item, maxDepth) == EntriesBroken(trees, item, es, maxDepth);
    QueueOne(trees, item, maxDepth);
    ExpandListing(trees, item, es, maxDepth);
    ExpandSize(trees, item, es, maxDepth);
    ExpandBroken(trees, item, es, maxDepth);
    QueueListingConcat(trees, [item], queue[1..], maxDepth);
    QueueListingConcat(trees, queue[1..], Children(item, es), maxDepth);
    QueueSizeConcat(trees, [item], queue[1..], maxDepth);
    QueueSizeConcat(trees, queue[1..], Children(item, es), maxDepth);
    QueueBrokenConcat(trees, [item], queue[1..], maxDepth);
    QueueBrokenConcat(trees, queue[1..], Children(item, es), maxDepth);
    hide Listing, EntriesListing, QueueListing, Size, EntriesSize, QueueSize, Broken, EntriesBroken, QueueBroken,
      Children, Files;
  }

  // ----- The listing as paths -----

  /** The full path of a file from the names on the way to it. */
  function PathOf(prefix: string, names: seq<string>): string
    decreases |names|
  {
    if names == [] then prefix else PathOf(FullPath(prefix, names[0]), names[1..])
  }

  /** The names with a slash between any two of them. */
  function Slashed(names: seq<string>): string
    requires names != []
  {
    if |names| == 1 then names[0] else names[0] + "/" + Slashed(names[1..])
  }

  /** A full path is the prefix, if there is one, and the names, all joined by slashes. */
  lemma {:induction false} PathIsSlashed(prefix: string, names: seq<string>)
    requires names != [] && (prefix == "" ==> names[0] != "")
    ensures PathOf(prefix, names) == if prefix == "" then Slashed(names) else prefix + "/" + Slashed(names)
    decreases |names|
  {
    var first := if prefix == "" then names[0] else prefix + "/" + names[0];
    assert first != "" && PathOf(prefix, names) == PathOf(first, names[1..]);
    if |names| == 1 {
      assert PathOf(first, []) == first;
    } else {
      PathIsSlashed(first, names[1..]);
      var rest := Slashed(names[1..]);
      assert prefix + "/" + names[0] + "/" + rest == prefix + "/" + (names[0] + "/" + rest);
    }
  }

  /** Following the names from a directory leads to this file. */
  predicate Leads(trees: Trees, sha: string, names: seq<string>, file: Entry)
    decreases |names|
  {
    && names != [] && sha in trees
    && exists i :: 0 <= i < |trees[sha].entries| &&
         var e := trees[sha].entries[i];
         && e.path == names[0]
         && if |names| == 1 then !e.isTree && e == file else e.isTree && Leads(trees, e.sha, names[1..], file)
  }

  ghost predicate LedTo(trees: Trees, item: Item, listed: Entry) {
    exists names, file :: Leads(trees, item.sha, names, file) && listed == file.(path := PathOf(item.prefix, names))
  }

  ghost predicate LedThrough(trees: Trees, item: Item, e: Entry, listed: Entry) {
    if e.isTree then LedTo(trees, Child(item, e), listed) else listed == Placed(item, e)
  }

  ghost predicate LedThroughSome(trees: Trees, item: Item, es: seq<Entry>, listed: Entry) {
    exists i :: 0 <= i < |es| && LedThrough(trees, item, es[i], listed)
  }

  /** One step on the way: through an entry of the directory. */
  lemma LedByEntry(trees: Trees, item: Item, listed: Entry)
    requires item.sha in trees
    ensures LedTo(trees, item, listed) <==> LedThroughSome(trees, item, trees[item.sha].entries, listed)
  {
    var es := trees[item.sha].entries;
    if LedTo(trees, item, listed) {
      var names, file :| Leads(trees, item.sha, names, file) && listed == file.(path := PathOf(item.prefix, names));
      LedBack(trees, item, names, file);
    }
    if LedThroughSome(trees, item, es, listed) {
      var i :| 0 <= i < |es| && LedThrough(trees, item, es[i], listed);
      LedOn(trees, item, i, listed);
    }
  }

  lemma LedBack(trees: Trees, item: Item, names: seq<string>, file: Entry)
    requires Leads(trees, item.sha, names, file)
    ensures LedThroughSome(trees, item, trees[item.sha].entries, file.(path := PathOf(item.prefix, names)))
  {
    var es := trees[item.sha].entries;
    var listed := file.(path := PathOf(item.prefix, names));
    var i :| 0 <= i < |es| && es[i].path == names[0] &&
      if |names| == 1 then !es[i].isTree && es[i] == file
      else es[i].isTree && Leads(trees, es[i].sha, names[1..], file);
    assert PathOf(item.prefix, names) == PathOf(FullPath(item.prefix, es[i].path), names[1..]);
    if |names| == 1 {
      assert names[1..] == [];
      assert LedThrough(trees, item, es[i], listed);
    } else {
      assert LedTo(trees, Child(item, es[i]), listed);
      assert LedThrough(trees, item, es[i], listed);
    }
  }

  lemma LedOn(trees: Trees, item: Item, i: nat, listed: Entry)
    requires item.sha in trees && i < |trees[item.sha].entries|
    requires LedThrough(trees, item, trees[item.sha].entries[i], listed)
    ensures LedTo(trees, item, listed)
  {
    var e := trees[item.sha].entries[i];
    if e.isTree {
      var names, file :|
        Leads(trees, e.sha, names, file) && listed == file.(path := PathOf(FullPath(item.prefix, e.path), names));
      var all := [e.path] + names;
      assert all[1..] == names;
      assert Leads(trees, item.sha, all, file);
    } else {
      var all := [e.path];
      assert all[1..] == [];
      assert Leads(trees, item.sha, all, e);
      assert PathOf(item.prefix, all) == FullPath(item.prefix, e.path);
    }
  }

  /** If every directory can be listed, the listing holds exactly the files that names lead to, each with
      its full path. */
  lemma {:induction false} ListingIsPaths(trees: Trees, item: Item, maxDepth: nat)
    requires !Broken(trees, item, maxDepth)
    ensures forall listed :: listed in Listing(trees, item, maxDepth) <==> LedTo(trees, item, listed)
    decreases Left(item, maxDepth), 1, 0
  {
    var es := trees[item.sha].entries;
    EntriesArePaths(trees, item, es, maxDepth);
    forall listed
      ensures listed in Listing(trees, item, maxDepth) <==> LedTo(trees, item, listed)
    {
      LedByEntry(trees, item, listed);
    }
  }

  lemma {:induction false} EntriesArePaths(trees: Trees, item: Item, es: seq<Entry>, maxDepth: nat)
    requires item.depth <= maxDepth && !EntriesBroken(trees, item, es, maxDepth)
    ensures forall listed :: listed in EntriesListing(trees, item, es, maxDepth) <==>
      LedThroughSome(trees, item, es, listed)
    decreases Left(item, maxDepth), 0, |es|
  {
    if es != [] {
      var front, e := es[..|es| - 1], es[|es| - 1];
      EntriesArePaths(trees, item, front, maxDepth);
      if e.isTree {
        ListingIsPaths(trees, Child(item, e), maxDepth);
      }
      hide Broken, Listing, LedTo;
      forall listed
        ensures listed in EntriesListing(trees, item, es, maxDepth) <==> LedThroughSome(trees, item, es, listed)
      {
        assert listed in EntriesListing(trees, item, es, maxDepth) <==>
               listed in EntriesListing(trees, item, front, maxDepth) || LedThrough(trees, item, e, listed);
        SplitLast(trees, item, es, listed);
      }
    }
  }

  lemma SplitLast(trees: Trees, item: Item, es: seq<Entry>, listed: Entry)
    requires es != []
    ensures LedThroughSome(trees, item, es, listed) <==>
            LedThroughSome(trees, item, es[..|es| - 1], listed) || LedThrough(trees, item, es[|es| - 1], listed)
  {
    hide LedThrough;
    var front := es[..|es| - 1];
    if LedThroughSome(trees, item, es, listed) {
      var i :| 0 <= i < |es| && LedThrough(trees, item, es[i], listed);
      assert i < |front| ==> front[i] == es[i];
    }
    if LedThroughSome(trees, item, front, listed) {
      var i :| 0 <= i < |front| && LedThrough(trees, item, front[i], listed);
      assert es[i] == front[i];
    }
  }

  // ----- Directories as paths -----

  /** Following the names from a directory, through listings that are there and whole, leads to this one. */
  predicate LeadsToDir(trees: Trees, sha: string, names: seq<string>, dir: string)
    decreases |names|
  {
    if names == [] then dir == sha
    else
      && sha in trees && !trees[sha].truncated
      && exists i :: 0 <= i < |trees[sha].entries| && Passes(trees, trees[sha].entries[i], names, dir)
  }

  predicate Passes(trees: Trees, e: Entry, names: seq<string>, dir: string)
    requires names != []
    decreases |names|, 0
  {
    e.isTree && e.path == names[0] && LeadsToDir(trees, e.sha, names[1..], dir)
  }

  /** Some directory at or under this one is too deep, cannot be fetched or is truncated. */
  ghost predicate SomeBad(trees: Trees, sha: string, depth: nat, maxDepth: nat) {
    exists names, dir :: LeadsToDir(trees, sha, names, dir) && Bad(trees, dir, depth + |names|, maxDepth)
  }

  predicate Bad(trees: Trees, dir: string, depth: nat, maxDepth: nat) {
    depth > maxDepth || dir !in trees || trees[dir].truncated
  }

  lemma {:induction false} BadBreaks(trees: Trees, item: Item, names: seq<string>, dir: string, maxDepth: nat)
    requires LeadsToDir(trees, item.sha, names, dir) && Bad(trees, dir, item.depth + |names|, maxDepth)
    ensures Broken(trees, item, maxDepth)
    decreases |names|
  {
    if names != [] && !Unlistable(trees, item, maxDepth) {
      var es := trees[item.sha].entries;
      var i :| 0 <= i < |es| && Passes(trees, es[i], names, dir);
      BadBreaks(trees, Child(item, es[i]), names[1..], dir, maxDepth);
      EntryBreaks(trees, item, es, i, maxDepth);
    }
  }

  lemma {:induction false} EntryBreaks(trees: Trees, item: Item, es: seq<Entry>, i: nat, maxDepth: nat)
    requires item.depth <= maxDepth && i < |es| && es[i].isTree && Broken(trees, Child(item, es[i]), maxDepth)
    ensures EntriesBroken(trees, item, es, maxDepth)
  {
    hide Broken;
    if i < |es| - 1 {
      EntryBreaks(trees, item, es[..|es| - 1], i, maxDepth);
    }
  }

  lemma {:induction false} BrokenIsBad(trees: Trees, item: Item, maxDepth: nat)
    requires Broken(trees, item, maxDepth)
    ensures SomeBad(trees, item.sha, item.depth, maxDepth)
    decreases Left(item, maxDepth), 1, 0
  {
    if Unlistable(trees, item, maxDepth) {
      var here: seq<string> := [];
      assert LeadsToDir(trees, item.sha, here, item.sha) && Bad(trees, item.sha, item.depth + |here|, maxDepth);
    } else {
      EntriesBad(trees, item, trees[item.sha].entries, maxDepth);
    }
  }

  lemma {:induction false} EntriesBad(trees: Trees, item: Item, es: seq<Entry>, maxDepth: nat)
    requires item.depth <= maxDepth && item.sha in trees && !trees[item.sha].truncated
    requires es <= trees[item.sha].entries && EntriesBroken(trees, item, es, maxDepth)
    ensures SomeBad(trees, item.sha, item.depth, maxDepth)
    decreases Left(item, maxDepth), 0, |es|
  {
    var e := es[|es| - 1];
    if EntriesBroken(trees, item, es[..|es| - 1], maxDepth) {
      EntriesBad(trees, item, es[..|es| - 1], maxDepth);
    } else {
      BrokenIsBad(trees, Child(item, e), maxDepth);
      hide EntriesBroken, Broken;
      var names, dir :| LeadsToDir(trees, e.sha, names, dir) && Bad(trees, dir, item.depth + 1 + |names|, maxDepth);
      var all := [e.path] + names;
      assert all[1..] == names && trees[item.sha].entries[|es| - 1] == e;
      assert Passes(trees, e, all, dir);
      assert LeadsToDir(trees, item.sha, all, dir) && Bad(trees, dir, item.depth + |all|, maxDepth);
    }
  }

  /** A directory breaks the listing exactly if some directory that names lead to is too deep, cannot be fetched
      or is truncated. */
  lemma BrokenIff(trees: Trees, item: Item, maxDepth: nat)
    ensures Broken(trees, item, maxDepth) <==> SomeBad(trees, item.sha, item.depth, maxDepth)
  {
    if Broken(trees, item, maxDepth) {
      BrokenIsBad(trees, item, maxDepth);
    } else if names, dir :| LeadsToDir(trees, item.sha, names, dir) && Bad(trees, dir, item.depth + |names|, maxDepth) {
      BadBreaks(trees, item, names, dir, maxDepth);
    }
  }

  /** The item stands for a directory some names lead to, at their depth and under their path. */
  ghost predicate Traced(trees: Trees, root: string, item: Item) {
    exists names :: TracedBy(trees, root, item, names)
  }

  predicate TracedBy(trees: Trees, root: string, item: Item, names: seq<string>) {
    LeadsToDir(trees, root, names, item.sha) && item.depth == |names| + 1 && item.prefix == PathOf("", names)
  }

  lemma {:induction false} LeadsOn(trees: Trees, sha: string, names: seq<string>, dir: string, e: Entry)
    requires LeadsToDir(trees, sha, names, dir)
    requires dir in trees && !trees[dir].truncated && e in trees[dir].entries && e.isTree
    ensures LeadsToDir(trees, sha, names + [e.path], e.sha)
    decreases |names|
  {
    var all := names + [e.path];
    if names == [] {
      assert all[1..] == [];
      var i :| 0 <= i < |trees[dir].entries| && trees[dir].entries[i] == e;
      assert Passes(trees, trees[dir].entries[i], all, e.sha);
    } else {
      var i :| 0 <= i < |trees[sha].entries| && Passes(trees, trees[sha].entries[i], names, dir);
      LeadsOn(trees, trees[sha].entries[i].sha, names[1..], dir, e);
      assert all[1..] == names[1..] + [e.path];
      assert Passes(trees, trees[sha].entries[i], all, e.sha);
    }
  }

  lemma {:induction false} PathOn(prefix: string, names: seq<string>, name: string)
    ensures PathOf(prefix, names + [name]) == FullPath(PathOf(prefix, names), name)
    decreases |names|
  {
    var all := names + [name];
    if names == [] {
      assert all[1..] == [] && PathOf(FullPath(prefix, name), []) == FullPath(prefix, name);
    } else {
      assert all[1..] == names[1..] + [name];
      PathOn(FullPath(prefix, names[0]), names[1..], name);
    }
  }

  lemma ChildTraced(trees: Trees, root: string, item: Item, e: Entry)
    requires Traced(trees, root, item)
    requires item.sha in trees && !trees[item.sha].truncated && e in trees[item.sha].entries && e.isTree
    ensures Traced(trees, root, Child(item, e))
  {
    hide LeadsToDir, PathOf;
    var names :| TracedBy(trees, root, item, names);
    LeadsOn(trees, root, names, item.sha, e);
    PathOn("", names, e.path);
    assert TracedBy(trees, root, Child(item, e), names + [e.path]);
  }

  lemma {:induction false} ChildrenTraced(trees: Trees, root: string, item: Item, es: seq<Entry>)
    requires Traced(trees, root, item) && item.sha in trees && !trees[item.sha].truncated
    requires forall e :: e in es ==> e in trees[item.sha].entries
    ensures forall c :: c in Children(item, es) ==> Traced(trees, root, c)
  {
    hide Traced;
    if es != [] {
      var front, last := es[..|es| - 1], es[|es| - 1];
      assert last in es && forall e :: e in front ==> e in es;
      ChildrenTraced(trees, root, item, front);
      if last.isTree {
        ChildTraced(trees, root, item, last);
      }
    }
  }

  const DEFAULT_MAX_DEPTH := 32
  const DEFAULT_MAX_FILES := 5000

  function Limit(configured: int, standard: nat): nat {
    if configured > 0 then configured else standard
  }

  lemma EmptyQueue(trees: Trees, maxDepth: nat)
    ensures QueueListing(trees, [], maxDepth) == multiset{} && !QueueBroken(trees, [], maxDepth)
  {
  }

  /** More files found already than allowed. */
  lemma TooMany(whole: multiset<Entry>, before: seq<Entry>, files: seq<Entry>, rest: multiset<Entry>)
    requires multiset(before) + (multiset(files) + rest) == whole
    ensures |before| + |files| <= |whole|
  {
    assert |multiset(before) + (multiset(files) + rest)| == |before| + |files| + |rest|;
  }

  /** Files a directory's entries: subdirectories are queued, files are added while there is room. */
  method Enter(item: Item, es: seq<Entry>, queue0: seq<Item>, all0: seq<Entry>, maxFiles: nat)
    returns (queue: seq<Item>, all: seq<Entry>, fits: bool)
    requires |all0| <= maxFiles
    ensures fits <==> |all0| + |Files(item, es)| <= maxFiles
    ensures fits ==> queue == queue0 + Children(item, es) && all == all0 + Files(item, es)
  {
    queue, all := queue0, all0;
    var i := 0;
    while i < |es|
      invariant 0 <= i <= |es| && |all| <= maxFiles
      invariant queue == queue0 + Children(item, es[..i])
      invariant all == all0 + Files(item, es[..i])
    {
      var e := es[i];
      assert es[..i + 1][..i] == es[..i] && es[..i + 1][i] == e;
      if e.isTree {
        queue := queue + [Child(item, e)];
      } else {
        all := all + [Placed(item, e)];
        if |all| > maxFiles {
          FilesGrow(item, es, i + 1);
          return queue, all, false;
        }
      }
      i := i + 1;
    }
    assert es[..i] == es;
    fits := true;
  }

  /** The error says truly what is wrong with a directory some names lead to, and names its path. */
  predicate Blamed(trees: Trees, root: string, names: seq<string>, dir: string, error: Error, maxDepth: nat) {
    && LeadsToDir(trees, root, names, dir)
    && match error
       case TooDeep(prefix) => prefix == PathOf("", names) && |names| + 1 > maxDepth
       case FetchFailed(prefix) => prefix == PathOf("", names) && dir !in trees
       case Incomplete(prefix) => prefix == PathOf("", names) && dir in trees && trees[dir].truncated
       case TooManyFiles => false
  }

  ghost predicate SomeBlamed(trees: Trees, root: string, error: Error, maxDepth: nat) {
    exists names, dir :: Blamed(trees, root, names, dir, error, maxDepth)
  }

  lemma ItemBlamed(trees: Trees, root: string, item: Item, maxDepth: nat)
    requires Traced(trees, root, item)
    ensures item.depth > maxDepth ==> SomeBlamed(trees, root, TooDeep(item.prefix), maxDepth)
    ensures item.sha !in trees ==> SomeBlamed(trees, root, FetchFailed(item.prefix), maxDepth)
    ensures item.sha in trees && trees[item.sha].truncated ==>
      SomeBlamed(trees, root, Incomplete(item.prefix), maxDepth)
  {
    hide LeadsToDir, PathOf;
    var names :| TracedBy(trees, root, item, names);
    assert item.depth > maxDepth ==> Blamed(trees, root, names, item.sha, TooDeep(item.prefix), maxDepth);
    assert item.sha !in trees ==> Blamed(trees, root, names, item.sha, FetchFailed(item.prefix), maxDepth);
    assert item.sha in trees && trees[item.sha].truncated ==>
      Blamed(trees, root, names, item.sha, Incomplete(item.prefix), maxDepth);
  }

  lemma RootTraced(trees: Trees, root: string)
    ensures Traced(trees, root, Item(root, "", 1))
  {
    assert TracedBy(trees, root, Item(root, "", 1), []);
  }

  /** The files of the root's tree with their full paths, or the reason why they cannot be listed: it fails
      exactly when some directory is too deep, cannot be fetched or is truncated, or there are too many
      files, and otherwise lists what the recursive listing lists. */
  method TraverseTreeNonRecursive(trees: Trees, rootSha: string, configuredDepth: int, configuredFiles: int)
    returns (r: Result)
    ensures var maxDepth: nat := if configuredDepth <= 0 then 32 else configuredDepth;
      var maxFiles := if configuredFiles <= 0 then 5000 else configuredFiles;
      var listing := Listing(trees, Item(rootSha, "", 1), maxDepth);
      && (r.Failed? <==> SomeBad(trees, rootSha, 1, maxDepth) || |listing| > maxFiles)
      && (r.Listed? ==> multiset(r.entries) == multiset(listing))
      && (r.Failed? && r.error != TooManyFiles ==> SomeBlamed(trees, rootSha, r.error, maxDepth))
      && (r.Failed? && r.error == TooManyFiles ==> |listing| > maxFiles)
  {
    var maxDepth, maxFiles := Limit(configuredDepth, DEFAULT_MAX_DEPTH), Limit(configuredFiles, DEFAULT_MAX_FILES);
    ghost var root := Item(rootSha, "", 1);
    EmptyQueue(trees, maxDepth);
    BrokenIff(trees, root, maxDepth);
    RootTraced(trees, rootSha);
    hide Listing, QueueListing, Size, QueueSize, Broken, QueueBroken, Files, Children, Traced, SomeBad, SomeBlamed;
    ghost var whole := multiset(Listing(trees, root, maxDepth));
    assert |whole| == |Listing(trees, root, maxDepth)|;
    QueueOne(trees, root, maxDepth);
    var all: seq<Entry> := [];
    var queue := [Item(rootSha, "", 1)];
    while queue != []
      invariant multiset(all) + QueueListing(trees, queue, maxDepth) == whole && |all| <= maxFiles
      invariant QueueBroken(trees, queue, maxDepth) <==> Broken(trees, root, maxDepth)
      invariant forall item :: item in queue ==> Traced(trees, rootSha, item)
      decreases QueueSize(trees, queue, maxDepth)
    {
      var item := queue[0];
      ItemBlamed(trees, rootSha, item, maxDepth);
      if item.depth > maxDepth {
        UnlistableBreaks(trees, queue, maxDepth);
        return Failed(TooDeep(item.prefix));
      }
      if item.sha !in trees {
        UnlistableBreaks(trees, queue, maxDepth);
        return Failed(FetchFailed(item.prefix));
      }
      var t := trees[item.sha];
      if t.truncated {
        UnlistableBreaks(trees, queue, maxDepth);
        return Failed(Incomplete(item.prefix));
      }
      PopKeeps(trees, queue, maxDepth);
      ghost var files := Files(item, t.entries);
      ghost var rest := QueueListing(trees, queue[1..] + Children(item, t.entries), maxDepth);
      assert multiset(all) + (multiset(files) + rest) == whole;
      TooMany(whole, all, files, rest);
      ChildrenTraced(trees, rootSha, item, t.entries);
      var fits;
      queue, all, fits := Enter(item, t.entries, queue[1..], all, maxFiles);
      if !fits {
        return Failed(TooManyFiles);
      }
    }
    r := Listed(all);
  }

  lemma UnlistableBreaks(trees: Trees, queue: seq<Item>, maxDepth: nat)
    requires queue != [] && Unlistable(trees, queue[0], maxDepth)
    ensures QueueBroken(trees, queue, maxDepth)
  {
    assert Broken(trees, queue[0], maxDepth);
  }

  lemma {:induction false} FilesGrow(item: Item, es: seq<Entry>, n: nat)
    requires n <= |es|
    ensures |Files(item, es[..n])| <= |Files(item, es)|
    decreases |es|
  {
    if n == |es| {
      assert es[..n] == es;
    } else {
      assert es[..|es| - 1][..n] == es[..n];
      FilesGrow(item, es[..|es| - 1], n);
    }
  }
}
