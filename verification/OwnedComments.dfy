/** pkg/github/client.go, FindOwnedComment: the paged scan on whose "absent" verdict every create rests. */
module OwnedComments {
  import opened Text
  import opened TextLaws

  datatype User = User(id: int, login: string)

  datatype Comment = Comment(id: nat, user: Option<User>, body: string)

  /** The verified identity of the service. */
  datatype Actor = Actor(id: int, login: string)

  /** The actor and the marker a scan looks for. */
  datatype Owner = Owner(actor: Actor, marker: string) {
    predicate Named() {
      (actor.id > 0 || actor.login != "") && marker != ""
    }

    predicate Wrote(c: Comment) {
      && c.user.Some?
      && ((actor.id > 0 && c.user.value.id == actor.id)
          || (actor.login != "" && EqualFold(c.user.value.login, actor.login)))
    }

    /** Written by the actor and carrying the marker; a copied marker in another user's comment is not. */
    predicate Owns(c: Comment) {
      Wrote(c) && Contains(c.body, marker)
    }
  }

  datatype Match = Found(id: nat, body: string) | Absent | Undecided

  const PER_PAGE := 100
  const MAX_PAGES := 20

  function Min(a: nat, b: nat): nat {
    if a < b then a else b
  }

  /** What page `page` of the list shows. */
  function Page(list: seq<Comment>, page: nat): seq<Comment>
    requires page > 0
  {
    list[Min((page - 1) * PER_PAGE, |list|)..Min(page * PER_PAGE, |list|)]
  }

  predicate LastPage(list: seq<Comment>, page: nat) {
    page * PER_PAGE >= |list|
  }

  function FirstOwned(o: Owner, cs: seq<Comment>): (r: Option<Comment>)
    ensures r.Some? ==> r.value in cs && o.Owns(r.value)
    ensures r.None? <==> forall c :: c in cs ==> !o.Owns(c)
  {
    if cs == [] then None
    else if o.Owns(cs[0]) then Some(cs[0])
    else FirstOwned(o, cs[1..])
  }

  /** The verdict of the scan from page `page` on, where `views[k]` is the list as the server has it when
      page k + 1 is read. */
  function Scan(o: Owner, views: seq<seq<Comment>>, page: nat): Match
    requires |views| == MAX_PAGES && page > 0
    decreases MAX_PAGES + 1 - page
  {
    if page > MAX_PAGES then Undecided else
    var hit := FirstOwned(o, Page(views[page - 1], page));
    if hit.Some? then Found(hit.value.id, hit.value.body)
    else if LastPage(views[page - 1], page) then Absent
    else Scan(o, views, page + 1)
  }

  // ----- The verdict, by user id, login and body -----

  /** No user, or one that has neither the positive id of the actor nor its login, in which only the case of
      letters may differ. */
  predicate Stranger(actor: Actor, c: Comment) {
    || c.user.None?
    || (&& (actor.id <= 0 || c.user.value.id != actor.id)
        && (actor.login == "" || !SameLetters(c.user.value.login, actor.login)))
  }

  /** By the actor, with the marker somewhere in its body. */
  ghost predicate Ours(o: Owner, c: Comment) {
    !Stranger(o.actor, c) && Carries(c.body, o.marker)
  }

  lemma OwnsIff(o: Owner, c: Comment)
    ensures o.Owns(c) <==> Ours(o, c)
  {
    ContainsIff(c.body, o.marker);
    if c.user.Some? {
      FoldsIff(c.user.value.login, o.actor.login);
    }
    hide Contains, EqualFold, SameLetters, StandsAt;
  }

  /** Comment `i` is on page `page`, a hundred comments to a page. */
  predicate OnPage(list: seq<Comment>, page: int, i: int) {
    100 * (page - 1) <= i < 100 * page && 0 <= i < |list|
  }

  predicate Shown(views: seq<seq<Comment>>, page: int, i: int) {
    1 <= page <= |views| && OnPage(views[page - 1], page, i)
  }

  /** The first `pages` pages show no comment of ours. */
  ghost predicate NoneShown(o: Owner, views: seq<seq<Comment>>, pages: int) {
    forall page, i :: page <= pages && Shown(views, page, i) ==> !Ours(o, views[page - 1][i])
  }

  /** None of the pages before `page` is the last of its list. */
  predicate Reaches(views: seq<seq<Comment>>, page: int) {
    forall q :: 1 <= q < page && q <= |views| ==> |views[q - 1]| > 100 * q
  }

  ghost predicate FirstOurs(o: Owner, views: seq<seq<Comment>>, page: int, i: int) {
    && Shown(views, page, i) && Ours(o, views[page - 1][i])
    && NoneShown(o, views, page - 1) && Reaches(views, page)
    && forall j :: j < i && Shown(views, page, j) ==> !Ours(o, views[page - 1][j])
  }

  ghost predicate EndsBare(o: Owner, views: seq<seq<Comment>>, page: int) {
    && 1 <= page <= |views| && |views[page - 1]| <= 100 * page
    && NoneShown(o, views, page) && Reaches(views, page)
  }

  /** The verdict is the first comment of ours that is shown; absent if a list ends with none shown; and
      undecided otherwise. */
  ghost predicate Decides(o: Owner, views: seq<seq<Comment>>, m: Match) {
    && (m.Found? <==> exists page, i :: FirstOurs(o, views, page, i))
    && (forall page, i :: FirstOurs(o, views, page, i) ==>
      m == Found(views[page - 1][i].id, views[page - 1][i].body))
    && (m == Absent <==> exists page :: EndsBare(o, views, page))
  }

  lemma {:induction false} FirstOwnedAt(o: Owner, cs: seq<Comment>) returns (i: nat)
    ensures i <= |cs| && forall j :: 0 <= j < i ==> !Ours(o, cs[j])
    ensures FirstOwned(o, cs) == if i < |cs| then Some(cs[i]) else None
    ensures i < |cs| ==> Ours(o, cs[i])
  {
    if cs == [] {
      i := 0;
    } else {
      OwnsIff(o, cs[0]);
      hide Owner.Owns, Ours;
      if o.Owns(cs[0]) {
        i := 0;
      } else {
        var k := FirstOwnedAt(o, cs[1..]);
        i := k + 1;
      }
    }
  }

  lemma PageIs(list: seq<Comment>, page: nat) returns (base: nat)
    requires page > 0
    ensures forall j :: OnPage(list, page, j) <==> base <= j < base + |Page(list, page)|
    ensures forall j :: OnPage(list, page, j) ==> list[j] == Page(list, page)[j - base]
    ensures base + |Page(list, page)| <= |list|
  {
    base := Min((page - 1) * PER_PAGE, |list|);
  }

  /** What reading page `page` shows: comment `i`, or none of ours. */
  lemma PageShows(o: Owner, list: seq<Comment>, page: nat) returns (i: nat)
    requires page > 0
    ensures FirstOwned(o, Page(list, page)) == if OnPage(list, page, i) then Some(list[i]) else None
    ensures OnPage(list, page, i) ==> Ours(o, list[i])
    ensures forall j :: OnPage(list, page, j) && (OnPage(list, page, i) ==> j < i) ==> !Ours(o, list[j])
  {
    var base := PageIs(list, page);
    hide Ours, Page, OnPage;
    var k := FirstOwnedAt(o, Page(list, page));
    hide FirstOwned;
    i := base + k;
  }

  lemma {:induction false} ScanFrom(o: Owner, views: seq<seq<Comment>>, page: nat)
    requires |views| == MAX_PAGES && 1 <= page <= MAX_PAGES + 1
    requires NoneShown(o, views, page - 1) && Reaches(views, page)
    ensures Decides(o, views, Scan(o, views, page))
    decreases MAX_PAGES + 1 - page
  {
    hide Ours, Page;
    if page <= MAX_PAGES {
      var view := views[page - 1];
      var i := PageShows(o, view, page);
      hide FirstOwned;
      if OnPage(view, page, i) {
        assert FirstOurs(o, views, page, i);
      } else {
        assert NoneShown(o, views, page);
        if LastPage(view, page) {
          assert EndsBare(o, views, page);
        } else {
          ScanFrom(o, views, page + 1);
        }
      }
    }
  }

  lemma ScanDecides(o: Owner, views: seq<seq<Comment>>)
    requires |views| == MAX_PAGES
    ensures Decides(o, views, Scan(o, views, 1))
  {
    ScanFrom(o, views, 1);
  }

  method FindOwnedComment(o: Owner, views: seq<seq<Comment>>) returns (m: Match)
    requires |views| == MAX_PAGES
    ensures m == Scan(o, views, 1) && Decides(o, views, m)
  {
    hide Decides, Owner.Owns, Page, LastPage;
    ScanDecides(o, views);
    var page := 1;
    while true
      invariant 1 <= page <= MAX_PAGES + 1
      invariant Scan(o, views, page) == Scan(o, views, 1)
      decreases MAX_PAGES + 1 - page
    {
      if page > MAX_PAGES {
        return Undecided;
      }
      var view := views[page - 1];
      var comments := Page(view, page);
      for i := 0 to |comments|
        invariant FirstOwned(o, comments[i..]) == FirstOwned(o, comments)
      {
        assert comments[i..][1..] == comments[i + 1..];
        if o.Owns(comments[i]) {
          return Found(comments[i].id, comments[i].body);
        }
      }
      if LastPage(view, page) {
        return Absent;
      }
      page := page + 1;
    }
  }

  // ----- When an absent verdict is a proof -----

  /** `c` stands at `pos[k]` when page k + 1 is read. Comments before it may be deleted, which moves it
      towards the front. */
  ghost predicate Tracks(views: seq<seq<Comment>>, c: Comment, pos: seq<nat>) {
    && |pos| == |views| == MAX_PAGES
    && (forall k :: 0 <= k < MAX_PAGES ==> pos[k] < |views[k]| && views[k][pos[k]] == c)
    && (forall j, k :: 0 <= j <= k < MAX_PAGES ==> pos[k] <= pos[j])
  }

  /** No other comment is owned. */
  ghost predicate OnlyOwned(o: Owner, views: seq<seq<Comment>>, c: Comment, pos: seq<nat>)
    requires Tracks(views, c, pos)
  {
    o.Owns(c) && forall k, i :: 0 <= k < MAX_PAGES && 0 <= i < |views[k]| && o.Owns(views[k][i]) ==> i == pos[k]
  }

  /** Between reading page k and page k + 1, deletions carry the comment back across the page boundary. */
  predicate SlipsPast(pos: seq<nat>, k: nat) {
    1 <= k < |pos| && pos[k - 1] >= k * PER_PAGE && pos[k] < k * PER_PAGE
  }

  lemma SeenOnPage(o: Owner, views: seq<seq<Comment>>, c: Comment, pos: seq<nat>, page: nat)
    requires Tracks(views, c, pos) && OnlyOwned(o, views, c, pos) && 1 <= page <= MAX_PAGES
    ensures FirstOwned(o, Page(views[page - 1], page))
         == if (page - 1) * PER_PAGE <= pos[page - 1] < page * PER_PAGE then Some(c) else None
  {
    hide Owner.Owns;
    var view, at := views[page - 1], pos[page - 1];
    var shown := Page(view, page);
    var base := Min((page - 1) * PER_PAGE, |view|);
    if base <= at < Min(page * PER_PAGE, |view|) {
      assert shown[at - base] == c;
    }
    var hit := FirstOwned(o, shown);
    if hit.Some? {
      var i :| 0 <= i < |shown| && shown[i] == hit.value;
      assert view[base + i] == hit.value;
    }
  }

  ghost predicate SlipsFrom(pos: seq<nat>, page: nat) {
    exists k :: page <= k && SlipsPast(pos, k)
  }

  lemma SlipsFromNext(pos: seq<nat>, page: nat)
    ensures SlipsFrom(pos, page) <==> SlipsPast(pos, page) || SlipsFrom(pos, page + 1)
  {
    if SlipsFrom(pos, page) {
      var k :| page <= k && SlipsPast(pos, k);
      assert k == page || page + 1 <= k;
    }
  }

  /** From a page the comment has not yet passed, the scan misses it exactly when it slips past a later
      boundary, unless the page limit stops the scan first. */
  lemma {:induction false} MissedFrom(o: Owner, views: seq<seq<Comment>>, c: Comment, pos: seq<nat>, page: nat)
    requires Tracks(views, c, pos) && OnlyOwned(o, views, c, pos) && 1 <= page <= MAX_PAGES
    requires pos[page - 1] >= (page - 1) * PER_PAGE
    ensures Scan(o, views, page) in {Absent, Found(c.id, c.body), Undecided}
    ensures Scan(o, views, page) != Undecided ==> (Scan(o, views, page) == Absent <==> SlipsFrom(pos, page))
    decreases MAX_PAGES - page
  {
    hide Owner.Owns, Page;
    SeenOnPage(o, views, c, pos, page);
    if pos[page - 1] < page * PER_PAGE {
      forall k | page <= k
        ensures !SlipsPast(pos, k)
      {
        assert k < |pos| ==> pos[k - 1] <= pos[page - 1];
      }
    } else if page < MAX_PAGES {
      SlipsFromNext(pos, page);
      if pos[page] >= page * PER_PAGE {
        MissedFrom(o, views, c, pos, page + 1);
      } else {
        NeverSeenAgain(o, views, c, pos, page + 1);
      }
    }
  }

  lemma {:induction false} NeverSeenAgain(o: Owner, views: seq<seq<Comment>>, c: Comment, pos: seq<nat>, page: nat)
    requires Tracks(views, c, pos) && OnlyOwned(o, views, c, pos) && 1 <= page <= MAX_PAGES
    requires pos[page - 1] < (page - 1) * PER_PAGE
    ensures Scan(o, views, page) == Absent || Scan(o, views, page) == Undecided
    decreases MAX_PAGES - page
  {
    SeenOnPage(o, views, c, pos, page);
    if page < MAX_PAGES {
      NeverSeenAgain(o, views, c, pos, page + 1);
    }
  }

  /** A scan that ends with a verdict misses the owned comment exactly when deletions of earlier comments
      carry it back across a page boundary between two page reads. */
  lemma AbsentIsWrongIff(o: Owner, views: seq<seq<Comment>>, c: Comment, pos: seq<nat>)
    requires Tracks(views, c, pos) && OnlyOwned(o, views, c, pos)
    requires Scan(o, views, 1) != Undecided
    ensures Scan(o, views, 1) == Absent <==> SlipsFrom(pos, 1)
    ensures Scan(o, views, 1) != Absent ==> Scan(o, views, 1) == Found(c.id, c.body)
  {
    MissedFrom(o, views, c, pos, 1);
  }

  /** It does happen: the owned comment opens the second page, and one earlier comment is deleted after
      the first page is read. */
  lemma OneDeletionHidesComment(o: Owner, before: seq<Comment>, c: Comment)
    requires |before| == PER_PAGE && o.Owns(c) && forall i :: 0 <= i < PER_PAGE ==> !o.Owns(before[i])
    ensures var views := [before + [c]] + seq(MAX_PAGES - 1, i => before[1..] + [c]);
      |views| == MAX_PAGES && Scan(o, views, 1) == Absent
  {
    var full, less := before + [c], before[1..] + [c];
    var views := [full] + seq(MAX_PAGES - 1, i => less);
    var pos: seq<nat> := [PER_PAGE] + seq(MAX_PAGES - 1, i => PER_PAGE - 1);
    assert forall i :: 0 <= i < |less| - 1 ==> less[i] == before[i + 1];
    assert forall k :: 0 < k < MAX_PAGES ==> views[k] == less;
    assert Tracks(views, c, pos) && OnlyOwned(o, views, c, pos);
    SeenOnPage(o, views, c, pos, 1);
    SeenOnPage(o, views, c, pos, 2);
    assert Scan(o, views, 2) == Absent;
  }

  // ----- Scans under appends and edits only -----

  /** What others may do to the list between two page reads: append, and edit their own comments. */
  predicate Appends(o: Owner, a: seq<Comment>, b: seq<Comment>) {
    && |a| <= |b|
    && (forall i :: 0 <= i < |a| ==> a[i].id == b[i].id && (o.Owns(a[i]) || o.Owns(b[i]) ==> a[i] == b[i]))
    && (forall i :: |a| <= i < |b| ==> !o.Owns(b[i]))
  }

  predicate AppendOnly(o: Owner, views: seq<seq<Comment>>) {
    forall j, k :: 0 <= j <= k < |views| ==> Appends(o, views[j], views[k])
  }

  /** None of the first `n` comments is owned. */
  ghost predicate NoneOwned(o: Owner, list: seq<Comment>, n: nat) {
    forall i :: 0 <= i < |list| && i < n ==> !o.Owns(list[i])
  }

  ghost predicate Holds(o: Owner, list: seq<Comment>, c: Comment) {
    o.Owns(c) && c in list
  }

  /** Reading one more page. */
  lemma PageDecides(o: Owner, list: seq<Comment>, page: nat)
    requires page > 0 && NoneOwned(o, list, (page - 1) * PER_PAGE)
    ensures var hit := FirstOwned(o, Page(list, page));
      && (hit.None? <==> NoneOwned(o, list, page * PER_PAGE))
      && (hit.Some? ==> Holds(o, list, hit.value))
  {
    hide Owner.Owns;
    var shown := Page(list, page);
    var base := Min((page - 1) * PER_PAGE, |list|);
    assert forall i :: 0 <= i < |shown| ==> list[base + i] == shown[i];
    assert forall i :: base <= i < |list| && i < page * PER_PAGE ==> list[i] == shown[i - base];
    if FirstOwned(o, shown).None? {
      forall i | 0 <= i < |list| && i < page * PER_PAGE
        ensures !o.Owns(list[i])
      {
        if i >= base {
          assert list[i] in shown;
        }
      }
    }
  }

  /** Under appends and edits only, "absent" means that no owned comment exists, and a comment found is
      owned and still there. */
  lemma {:induction false} ScanSound(o: Owner, views: seq<seq<Comment>>, page: nat)
    requires |views| == MAX_PAGES && AppendOnly(o, views) && 1 <= page <= MAX_PAGES
    requires NoneOwned(o, views[page - 1], (page - 1) * PER_PAGE)
    ensures var m, last := Scan(o, views, page), views[MAX_PAGES - 1];
      && (m == Absent ==> NoneOwned(o, last, |last|))
      && (m.Found? ==> exists c :: Holds(o, last, c) && c.id == m.id && c.body == m.body)
    decreases MAX_PAGES - page
  {
    hide Owner.Owns, Page;
    var view, last := views[page - 1], views[MAX_PAGES - 1];
    PageDecides(o, view, page);
    assert Appends(o, view, last);
    var hit := FirstOwned(o, Page(view, page));
    if hit.Some? {
      var i :| 0 <= i < |view| && view[i] == hit.value;
      assert last[i] == hit.value;
      assert Holds(o, last, hit.value);
    } else if LastPage(view, page) {
      AbsentCarries(o, view, last, |view|);
    } else if page < MAX_PAGES {
      assert Appends(o, view, views[page]);
      AbsentCarries(o, view, views[page], page * PER_PAGE);
      ScanSound(o, views, page + 1);
    }
  }

  lemma AbsentCarries(o: Owner, a: seq<Comment>, b: seq<Comment>, n: nat)
    requires Appends(o, a, b) && NoneOwned(o, a, n) && n <= |a|
    ensures NoneOwned(o, b, n)
    ensures n == |a| ==> NoneOwned(o, b, |b|)
  {
    hide Owner.Owns;
    forall i | 0 <= i < |b| && (i < n || n == |a|)
      ensures !o.Owns(b[i])
    {
    }
  }

  function Still(list: seq<Comment>): (views: seq<seq<Comment>>)
    ensures |views| == MAX_PAGES
  {
    seq(MAX_PAGES, i => list)
  }

  /** On a list that does not change, the scan decides exactly when an owned comment is on the first
      twenty pages or the list ends there. */
  lemma {:induction false} StillScanDecides(o: Owner, list: seq<Comment>, page: nat)
    requires 1 <= page <= MAX_PAGES
    requires NoneOwned(o, list, (page - 1) * PER_PAGE)
    ensures Scan(o, Still(list), page) == Undecided <==>
      |list| > MAX_PAGES * PER_PAGE && NoneOwned(o, list, MAX_PAGES * PER_PAGE)
    decreases MAX_PAGES - page
  {
    hide Owner.Owns, Page;
    PageDecides(o, list, page);
    var hit := FirstOwned(o, Page(list, page));
    if hit.None? && !LastPage(list, page) && page < MAX_PAGES {
      StillScanDecides(o, list, page + 1);
    }
  }

  ghost predicate FirstIn(o: Owner, list: seq<Comment>, i: nat)
    requires i < |list|
  {
    Ours(o, list[i]) && forall j :: 0 <= j < i ==> !Ours(o, list[j])
  }

  /** What the scan says of a list that does not change: its first comment of ours if that is one of the
      first 2000, absent if there is none and the list is no longer than that. */
  lemma StillVerdict(o: Owner, list: seq<Comment>)
    ensures var m := Scan(o, Still(list), 1);
      && (m == Absent <==> |list| <= 2000 && forall i :: 0 <= i < |list| ==> !Ours(o, list[i]))
      && forall i :: 0 <= i < |list| && i < 2000 && FirstIn(o, list, i) ==> m == Found(list[i].id, list[i].body)
  {
    var views := Still(list);
    ScanFrom(o, views, 1);
    hide Ours, Scan, Still;
    assert forall k :: 0 <= k < MAX_PAGES ==> views[k] == list;
    forall i | 0 <= i < |list| && i < 2000 && FirstIn(o, list, i)
      ensures FirstOurs(o, views, i / 100 + 1, i)
    {
    }
    if |list| <= 2000 && forall i :: 0 <= i < |list| ==> !Ours(o, list[i]) {
      assert EndsBare(o, views, if |list| == 0 then 1 else (|list| - 1) / 100 + 1);
    }
    forall page | EndsBare(o, views, page)
      ensures |list| <= 2000 && forall i :: 0 <= i < |list| ==> !Ours(o, list[i])
    {
      forall i | 0 <= i < |list|
        ensures !Ours(o, list[i])
      {
        assert Shown(views, i / 100 + 1, i);
      }
    }
  }
}
