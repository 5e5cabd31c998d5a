/** pkg/reviewer/decision.go, ClassifyAgainstPrior: which findings persist, are fixed, or are new. */
module FindingMatch {
  import opened Text

  datatype Finding = Finding(file: string, line: int, severity: string, title: string, body: string)

  datatype Prior = Prior(file: string, line: int, severity: string, title: string, fingerprint: string, headSha: string)

  datatype Persisting = Persisting(finding: Finding, priorFile: string, priorLine: int, priorSha: string)

  datatype Fixed = Fixed(title: string, file: string, severity: string, priorSha: string)

  datatype Classified = Classified(persisting: seq<Persisting>, gone: seq<Fixed>, added: seq<Finding>)

  function NormalizeTitle(title: string): string {
    ToLower(TrimSpace(title))
  }

  function Identity(file: string, title: string, severity: string): string {
    TrimSpace(file) + ":" + NormalizeTitle(title) + ":" + ToUpper(TrimSpace(severity))
  }

  function IdOf(f: Finding): string {
    Identity(f.file, f.title, f.severity)
  }

  function RowId(r: Prior): string {
    Identity(r.file, r.title, r.severity)
  }

  // ----- Identity -----

  predicate NoColon(s: string) {
    ':' !in s
  }

  /** Where a text is cut at its last colon. */
  lemma CutAtLastColon(a: string, b: string, c: string, d: string)
    requires NoColon(b) && NoColon(d) && a + ":" + b == c + ":" + d
    ensures a == c && b == d
  {
    var s := a + ":" + b;
    assert s[|a|] == ':' && s[|c|] == ':';
    assert s[..|a|] == a && s[..|c|] == c && s[|a| + 1..] == b && s[|c| + 1..] == d;
  }

  /** File and title run into each other: `q` is `p`, a colon and a rest with which title `t` begins. */
  predicate RunsOver(p: string, t: string, q: string, u: string) {
    |p| < |q| && q[..|p|] == p && q[|p|] == ':' && t == q[|p| + 1..] + ":" + u
  }

  /** Two joins are equal exactly when their parts are, or one file runs over into the other's title. */
  lemma JoinsEqualIff(p: string, t: string, q: string, u: string)
    ensures p + ":" + t == q + ":" + u <==> (p == q && t == u) || RunsOver(p, t, q, u) || RunsOver(q, u, p, t)
  {
    var a, b := p + ":" + t, q + ":" + u;
    if |p| < |q| {
      ShorterJoin(p, t, q, u);
    } else if |q| < |p| {
      ShorterJoin(q, u, p, t);
    } else if a == b {
      assert a[..|p|] == p && b[..|q|] == q && a[|p| + 1..] == t && b[|q| + 1..] == u;
    }
  }

  lemma ShorterJoin(p: string, t: string, q: string, u: string)
    requires |p| < |q|
    ensures p + ":" + t == q + ":" + u <==> RunsOver(p, t, q, u)
  {
    var a, b := p + ":" + t, q + ":" + u;
    assert a[..|p|] == p && a[|p|] == ':' && a[|p| + 1..] == t;
    assert b[..|p|] == q[..|p|] && b[|p|] == q[|p|] && b[|p| + 1..] == q[|p| + 1..] + ":" + u;
    if RunsOver(p, t, q, u) {
      assert a == a[..|p|] + [a[|p|]] + a[|p| + 1..] && b == b[..|p|] + [b[|p|]] + b[|p| + 1..];
    }
  }

  /** Two findings share an identity exactly when they agree in severity, and in file and normalized title or
      as joined by the colon only. Severities hold no colon: they are one of three words. */
  lemma SameIdentityIff(file: string, title: string, severity: string, file': string, title': string, severity': string)
    requires NoColon(ToUpper(TrimSpace(severity))) && NoColon(ToUpper(TrimSpace(severity')))
    ensures var p, t, q, u := TrimSpace(file), NormalizeTitle(title), TrimSpace(file'), NormalizeTitle(title');
      Identity(file, title, severity) == Identity(file', title', severity') <==>
        && ToUpper(TrimSpace(severity)) == ToUpper(TrimSpace(severity'))
        && ((p == q && t == u) || RunsOver(p, t, q, u) || RunsOver(q, u, p, t))
  {
    hide TrimSpace, ToUpper, NormalizeTitle, RunsOver;
    var a, b, c := TrimSpace(file), NormalizeTitle(title), ToUpper(TrimSpace(severity));
    var d, e, f := TrimSpace(file'), NormalizeTitle(title'), ToUpper(TrimSpace(severity'));
    JoinsEqualIff(a, b, d, e);
    if Identity(file, title, severity) == Identity(file', title', severity') {
      CutAtLastColon(a + ":" + b, c, d + ":" + e, f);
    }
  }

  /** A finding is matched with a prior row exactly on equal severities and equal files and normalized titles,
      or such as the colon joins alike. */
  lemma MatchesIff(f: Finding, r: Prior)
    requires NoColon(ToUpper(TrimSpace(f.severity))) && NoColon(ToUpper(TrimSpace(r.severity)))
    ensures var p, t, q, u := TrimSpace(f.file), NormalizeTitle(f.title), TrimSpace(r.file), NormalizeTitle(r.title);
      IdOf(f) == RowId(r) <==>
        && ToUpper(TrimSpace(f.severity)) == ToUpper(TrimSpace(r.severity))
        && ((p == q && t == u) || RunsOver(p, t, q, u) || RunsOver(q, u, p, t))
  {
    SameIdentityIff(f.file, f.title, f.severity, r.file, r.title, r.severity);
    hide TrimSpace, ToUpper, NormalizeTitle, RunsOver, Identity;
  }

  /** A file `q` that a title can make look like `p`: `p`, a colon, and a rest that is the start of a
      normalized title. */
  predicate Mixable(p: string, q: string) {
    && |p| < |q| && q[..|p|] == p && q[|p|] == ':'
    && NormalizeTitle(q[|p| + 1..] + ":") == q[|p| + 1..] + ":"
  }

  ghost predicate CanShare(file: string, file': string, severity: string) {
    exists title, title' :: Identity(file, title, severity) == Identity(file', title', severity)
  }

  lemma LowerTwice(s: string)
    ensures ToLower(ToLower(s)) == ToLower(s)
  {
    var l := ToLower(s);
    assert forall i :: 0 <= i < |s| ==> ToLower(l)[i] == Lower(l[i]) == l[i];
  }

  lemma NormalizedEnds(title: string)
    ensures var t := NormalizeTitle(title);
      && ToLower(t) == t && (t == "" || (!IsSpace(t[0]) && !IsSpace(t[|t| - 1])))
  {
    var s := TrimSpace(title);
    TrimmedEnds(title);
    LowerTwice(s);
    hide TrimSpace;
    assert s != "" ==> ToLower(s)[0] == Lower(s[0]) && ToLower(s)[|s| - 1] == Lower(s[|s| - 1]);
  }

  lemma NormalizedFixed(t: string)
    requires ToLower(t) == t && (t == "" || (!IsSpace(t[0]) && !IsSpace(t[|t| - 1])))
    ensures NormalizeTitle(t) == t
  {
  }

  /** The front of a normalized title, up to a colon in it, is one as well. */
  lemma FrontNormalized(title: string, rest: string, u: string)
    requires NormalizeTitle(title) == rest + ":" + u
    ensures NormalizeTitle(rest + ":") == rest + ":"
  {
    NormalizedEnds(title);
    hide NormalizeTitle, TrimSpace;
    var t, front := NormalizeTitle(title), rest + ":";
    assert t[..|front|] == front && t[0] == front[0];
    forall i | 0 <= i < |front|
      ensures Lower(front[i]) == front[i]
    {
      assert ToLower(t)[i] == t[i] == front[i];
    }
    assert ToLower(front) == front;
    NormalizedFixed(front);
  }

  lemma NoTitle()
    ensures NormalizeTitle("") == ""
  {
  }

  /** Findings of two different files can share an identity exactly when one file is the other, a colon, and
      a rest that starts a normalized title. */
  lemma CanShareIff(file: string, file': string, severity: string)
    requires NoColon(ToUpper(TrimSpace(severity))) && TrimSpace(file) != TrimSpace(file')
    ensures var p, q := TrimSpace(file), TrimSpace(file');
      CanShare(file, file', severity) <==> Mixable(p, q) || Mixable(q, p)
  {
    hide TrimSpace, ToUpper, NormalizeTitle, Identity, CanShare;
    var p, q := TrimSpace(file), TrimSpace(file');
    if CanShare(file, file', severity) {
      var title, title' := SharingTitles(file, file', severity);
      SameIdentityIff(file, title, severity, file', title', severity);
      if RunsOver(p, NormalizeTitle(title), q, NormalizeTitle(title')) {
        FrontNormalized(title, q[|p| + 1..], NormalizeTitle(title'));
      } else {
        FrontNormalized(title', p[|q| + 1..], NormalizeTitle(title));
      }
    }
    NoTitle();
    if Mixable(p, q) {
      var title := q[|p| + 1..] + ":";
      assert title + "" == title;
      SameIdentityIff(file, title, severity, file', "", severity);
      Shares(file, title, file', "", severity);
    }
    if Mixable(q, p) {
      var title := p[|q| + 1..] + ":";
      assert title + "" == title;
      SameIdentityIff(file, "", severity, file', title, severity);
      Shares(file, "", file', title, severity);
    }
  }

  lemma SharingTitles(file: string, file': string, severity: string) returns (title: string, title': string)
    requires CanShare(file, file', severity)
    ensures Identity(file, title, severity) == Identity(file', title', severity)
  {
    title, title' :| Identity(file, title, severity) == Identity(file', title', severity);
  }

  lemma Shares(file: string, title: string, file': string, title': string, severity: string)
    requires Identity(file, title, severity) == Identity(file', title', severity)
    ensures CanShare(file, file', severity)
  {
  }

  /** With a colon in a file name the identities of different findings can meet. */
  lemma ColonMixesIdentities(a: string, b: string, c: string, severity: string)
    requires TrimSpace(a) == a && TrimSpace(a + ":" + b) == a + ":" + b
    requires NormalizeTitle(b + ":" + c) == b + ":" + c && NormalizeTitle(c) == c
    ensures Identity(a + ":" + b, c, severity) == Identity(a, b + ":" + c, severity)
  {
    hide TrimSpace, ToUpper, NormalizeTitle;
    var s := ToUpper(TrimSpace(severity));
    assert (a + ":" + b) + ":" + c + ":" + s == a + ":" + (b + ":" + c) + ":" + s;
  }

  // ----- Which row a finding is matched with -----

  /** The findings of one identity, in order. */
  function Same(current: seq<Finding>, id: string): seq<Finding> {
    if current == [] then []
    else if IdOf(current[|current| - 1]) == id then Same(current[..|current| - 1], id) + [current[|current| - 1]]
    else Same(current[..|current| - 1], id)
  }

  /** The prior rows of one identity, in order. */
  function Rows(rows: seq<Prior>, id: string): seq<Prior> {
    if rows == [] then []
    else if RowId(rows[|rows| - 1]) == id then Rows(rows[..|rows| - 1], id) + [rows[|rows| - 1]]
    else Rows(rows[..|rows| - 1], id)
  }

  /** The row of the last finding: the k-th of its identity is matched with the k-th row of it. */
  function Partner(current: seq<Finding>, rows: seq<Prior>): Option<Prior>
    requires current != []
  {
    var id := IdOf(current[|current| - 1]);
    var k := |Same(current[..|current| - 1], id)|;
    if k < |Rows(rows, id)| then Some(Rows(rows, id)[k]) else None
  }

  function Persist(f: Finding, r: Prior): Persisting {
    Persisting(f, r.file, r.line, r.headSha)
  }

  function PersistingOf(current: seq<Finding>, rows: seq<Prior>): seq<Persisting> {
    if current == [] then []
    else
      var before := PersistingOf(current[..|current| - 1], rows);
      match Partner(current, rows)
      case Some(r) => before + [Persist(current[|current| - 1], r)]
      case None => before
  }

  function NewOf(current: seq<Finding>, rows: seq<Prior>): seq<Finding> {
    if current == [] then []
    else
      var before := NewOf(current[..|current| - 1], rows);
      if Partner(current, rows).Some? then before else before + [current[|current| - 1]]
  }

  function MatchedOf(current: seq<Finding>, rows: seq<Prior>): seq<Prior> {
    if current == [] then []
    else
      var before := MatchedOf(current[..|current| - 1], rows);
      match Partner(current, rows)
      case Some(r) => before + [r]
      case None => before
  }

  function Findings(ps: seq<Persisting>): (r: seq<Finding>)
    ensures |r| == |ps|
  {
    seq(|ps|, i requires 0 <= i < |ps| => ps[i].finding)
  }

  function Lesser(a: nat, b: nat): (r: nat)
    ensures r == a || r == b
    ensures r <= a && r <= b
  {
    if a < b then a else b
  }

  function Pairs(current: seq<Finding>, rows: seq<Prior>, id: string): (n: nat)
    ensures n <= |Same(current, id)| && n <= |Rows(rows, id)|
  {
    Lesser(|Same(current, id)|, |Rows(rows, id)|)
  }

  lemma SameSnoc(fs: seq<Finding>, f: Finding, id: string)
    ensures Same(fs + [f], id) == if IdOf(f) == id then Same(fs, id) + [f] else Same(fs, id)
  {
    hide IdOf;
    assert (fs + [f])[..|fs|] == fs;
  }

  lemma RowsSnoc(rows: seq<Prior>, r: Prior, id: string)
    ensures Rows(rows + [r], id) == if RowId(r) == id then Rows(rows, id) + [r] else Rows(rows, id)
  {
    hide RowId;
    assert (rows + [r])[..|rows|] == rows;
  }

  lemma {:induction false} RowsHaveId(rows: seq<Prior>, id: string)
    ensures forall i :: 0 <= i < |Rows(rows, id)| ==> RowId(Rows(rows, id)[i]) == id
  {
    hide Identity;
    if rows != [] {
      RowsHaveId(rows[..|rows| - 1], id);
    }
  }

  lemma PartnerOf(current: seq<Finding>, rows: seq<Prior>, id: string)
    requires current != []
    ensures var before, f := current[..|current| - 1], current[|current| - 1]; var n := Pairs(before, rows, id);
      && Same(current, id) == (if IdOf(f) == id then Same(before, id) + [f] else Same(before, id))
      && (IdOf(f) != id ==> Pairs(current, rows, id) == n)
      && (IdOf(f) == id && Partner(current, rows).None? ==> Pairs(current, rows, id) == n == |Rows(rows, id)|)
      && (IdOf(f) == id && Partner(current, rows).Some? ==>
            && Pairs(current, rows, id) == n + 1 && n == |Same(before, id)| < |Rows(rows, id)|
            && Partner(current, rows).value == Rows(rows, id)[n])
      && (Partner(current, rows).Some? ==> RowId(Partner(current, rows).value) == IdOf(f))
  {
    hide Identity;
    RowsHaveId(rows, IdOf(current[|current| - 1]));
  }

  lemma StepOf(current: seq<Finding>, rows: seq<Prior>)
    requires current != []
    ensures var before, f, r := current[..|current| - 1], current[|current| - 1], Partner(current, rows);
      if r.Some? then
        && MatchedOf(current, rows) == MatchedOf(before, rows) + [r.value]
        && Findings(PersistingOf(current, rows)) == Findings(PersistingOf(before, rows)) + [f]
        && NewOf(current, rows) == NewOf(before, rows)
      else
        && MatchedOf(current, rows) == MatchedOf(before, rows)
        && PersistingOf(current, rows) == PersistingOf(before, rows)
        && NewOf(current, rows) == NewOf(before, rows) + [f]
  {
    hide Partner;
  }

  lemma NothingCurrent(rows: seq<Prior>, id: string)
    ensures Findings(PersistingOf([], rows)) == [] && NewOf([], rows) == [] && MatchedOf([], rows) == []
    ensures Same([], id) == [] && Rows([], id) == [] && Pairs([], rows, id) == 0
  {
  }

  lemma {:induction false} MatchedRows(current: seq<Finding>, rows: seq<Prior>, id: string)
    ensures Rows(MatchedOf(current, rows), id) == Rows(rows, id)[..Pairs(current, rows, id)]
  {
    hide Identity, Partner, Pairs, Same, Rows, MatchedOf, IdOf, RowId;
    if current == [] {
      NothingCurrent(rows, id);
    } else {
      var before, own, r := current[..|current| - 1], Rows(rows, id), Partner(current, rows);
      MatchedRows(before, rows, id);
      PartnerOf(current, rows, id);
      StepOf(current, rows);
      if r.Some? {
        RowsSnoc(MatchedOf(before, rows), r.value, id);
        if RowId(r.value) == id {
          TakeNext(own, Pairs(before, rows, id));
        }
      }
    }
  }

  lemma TakeNext<T>(s: seq<T>, n: nat)
    requires n < |s|
    ensures s[..n + 1] == s[..n] + [s[n]]
  {
  }

  lemma {:induction false} PersistingPerIdentity(current: seq<Finding>, rows: seq<Prior>, id: string)
    ensures Same(Findings(PersistingOf(current, rows)), id) == Same(current, id)[..Pairs(current, rows, id)]
  {
    hide Identity, Partner, Pairs, Same, Rows, PersistingOf, IdOf, RowId;
    if current == [] {
      NothingCurrent(rows, id);
    } else {
      var before, f := current[..|current| - 1], current[|current| - 1];
      PersistingPerIdentity(before, rows, id);
      PartnerOf(current, rows, id);
      StepOf(current, rows);
      SameSnoc(Findings(PersistingOf(before, rows)), f, id);
    }
  }

  lemma {:induction false} NewPerIdentity(current: seq<Finding>, rows: seq<Prior>, id: string)
    ensures Same(NewOf(current, rows), id) == Same(current, id)[Pairs(current, rows, id)..]
  {
    hide Identity, Partner, Pairs, Same, Rows, NewOf, IdOf, RowId;
    if current == [] {
      NothingCurrent(rows, id);
    } else {
      var before, f := current[..|current| - 1], current[|current| - 1];
      NewPerIdentity(before, rows, id);
      PartnerOf(current, rows, id);
      StepOf(current, rows);
      SameSnoc(NewOf(before, rows), f, id);
    }
  }

  /** Per identity: the first min(current, prior) findings persist and the others are new; they are matched
      with the first rows. */
  lemma MatchedPerIdentity(current: seq<Finding>, rows: seq<Prior>, id: string)
    ensures var n := Lesser(|Same(current, id)|, |Rows(rows, id)|);
      && Rows(MatchedOf(current, rows), id) == Rows(rows, id)[..n]
      && Same(Findings(PersistingOf(current, rows)), id) == Same(current, id)[..n]
      && Same(NewOf(current, rows), id) == Same(current, id)[n..]
  {
    MatchedRows(current, rows, id);
    PersistingPerIdentity(current, rows, id);
    NewPerIdentity(current, rows, id);
  }

  /** A persisting finding is reported at the place and head of its own row, and has that row's identity. */
  lemma {:induction false} PersistingNamesItsRow(current: seq<Finding>, rows: seq<Prior>)
    ensures var ps, matched := PersistingOf(current, rows), MatchedOf(current, rows);
      && |ps| == |matched|
      && forall i :: 0 <= i < |ps| ==>
           && ps[i].priorFile == matched[i].file && ps[i].priorLine == matched[i].line
             && ps[i].priorSha == matched[i].headSha
           && RowId(matched[i]) == IdOf(ps[i].finding)
  {
    hide Identity, Partner, IdOf, RowId;
    if current != [] {
      PersistingNamesItsRow(current[..|current| - 1], rows);
      PartnerOf(current, rows, "");
    }
  }

  // ----- Partitions -----

  /** Two lists woven into one, each in its order. */
  ghost predicate Weaves(whole: seq<Finding>, a: seq<Finding>, b: seq<Finding>)
    decreases |whole|
  {
    if whole == [] then a == [] && b == []
    else
      var rest, last := whole[..|whole| - 1], whole[|whole| - 1];
      || (a != [] && a[|a| - 1] == last && Weaves(rest, a[..|a| - 1], b))
      || (b != [] && b[|b| - 1] == last && Weaves(rest, a, b[..|b| - 1]))
  }

  lemma WeavesSnoc(whole: seq<Finding>, a: seq<Finding>, b: seq<Finding>, f: Finding)
    requires Weaves(whole, a, b)
    ensures Weaves(whole + [f], a + [f], b) && Weaves(whole + [f], a, b + [f])
  {
    assert (whole + [f])[..|whole|] == whole && (a + [f])[..|a|] == a && (b + [f])[..|b|] == b;
  }

  /** Persisting and new findings together are the current findings, in order. */
  lemma {:induction false} CurrentPartitioned(current: seq<Finding>, rows: seq<Prior>)
    ensures Weaves(current, Findings(PersistingOf(current, rows)), NewOf(current, rows))
  {
    hide Partner, PersistingOf, NewOf, Findings;
    if current == [] {
      NothingCurrent(rows, "");
    } else {
      hide Weaves;
      var before, f := current[..|current| - 1], current[|current| - 1];
      CurrentPartitioned(before, rows);
      StepOf(current, rows);
      assert before + [f] == current;
      WeavesSnoc(before, Findings(PersistingOf(before, rows)), NewOf(before, rows), f);
    }
  }

  lemma {:induction false} CountedInOwnRows(rows: seq<Prior>, r: Prior)
    ensures multiset(rows)[r] == multiset(Rows(rows, RowId(r)))[r]
  {
    hide Identity, RowId;
    if rows != [] {
      CountedInOwnRows(rows[..|rows| - 1], r);
      assert rows == rows[..|rows| - 1] + [rows[|rows| - 1]];
    }
  }

  /** `gone` holds, per identity, the rows that are matched with no finding. */
  ghost predicate Unmatched(gone: seq<Prior>, current: seq<Finding>, rows: seq<Prior>) {
    forall id :: Rows(gone, id) == Rows(rows, id)[Pairs(current, rows, id)..]
  }

  /** Matched rows and fixed rows together are the prior rows. */
  lemma PriorPartitioned(current: seq<Finding>, rows: seq<Prior>, gone: seq<Prior>)
    requires Unmatched(gone, current, rows)
    ensures multiset(MatchedOf(current, rows)) + multiset(gone) == multiset(rows)
  {
    hide Identity, Pairs, Rows, MatchedOf, RowId;
    forall r: Prior
      ensures (multiset(MatchedOf(current, rows)) + multiset(gone))[r] == multiset(rows)[r]
    {
      var id := RowId(r);
      CountedInOwnRows(MatchedOf(current, rows), r);
      CountedInOwnRows(gone, r);
      CountedInOwnRows(rows, r);
      MatchedRows(current, rows, id);
      var own, n := Rows(rows, id), Pairs(current, rows, id);
      assert own == own[..n] + own[n..];
      assert Rows(gone, id) == own[n..];
    }
  }

  // ----- The code -----

  datatype Slot = Slot(row: Prior, matched: bool)

  type Table = map<string, seq<Slot>>

  function At(table: Table, id: string): seq<Slot> {
    if id in table then table[id] else []
  }

  /** The table holds the rows of each identity, and the first ones of them are matched. */
  ghost predicate Tracks(table: Table, current: seq<Finding>, rows: seq<Prior>) {
    forall id :: Tracked(At(table, id), Same(current, id), Rows(rows, id))
  }

  predicate Tracked(slots: seq<Slot>, same: seq<Finding>, own: seq<Prior>) {
    |slots| == |own| && forall i :: 0 <= i < |slots| ==> slots[i] == Slot(own[i], i < |same|)
  }

  function Headed(r: Prior, priorHead: string): Prior {
    if r.headSha == "" then r.(headSha := priorHead) else r
  }

  function AllHeaded(rows: seq<Prior>, priorHead: string): (r: seq<Prior>)
    ensures |r| == |rows|
    ensures forall i :: 0 <= i < |rows| ==>
      r[i] == rows[i].(headSha := if rows[i].headSha == "" then priorHead else rows[i].headSha)
  {
    seq(|rows|, i requires 0 <= i < |rows| => Headed(rows[i], priorHead))
  }

  lemma TracksNothing()
    ensures Tracks(map[], [], [])
  {
  }

  lemma TracksRow(table: Table, rows: seq<Prior>, r: Prior)
    requires Tracks(table, [], rows)
    ensures Tracks(table[RowId(r) := At(table, RowId(r)) + [Slot(r, false)]], [], rows + [r])
  {
    hide RowId, Rows, Same, Identity;
    var id := RowId(r);
    var slots := At(table, id) + [Slot(r, false)];
    forall other
      ensures Tracked(At(table[id := slots], other), Same([], other), Rows(rows + [r], other))
    {
      NothingCurrent(rows, other);
      RowsSnoc(rows, r, other);
      assert Tracked(At(table, other), Same([], other), Rows(rows, other));
    }
  }

  method BuildTable(priorHead: string, priorRows: seq<Prior>) returns (table: Table)
    ensures Tracks(table, [], AllHeaded(priorRows, priorHead))
  {
    hide RowId, Tracks;
    ghost var rows := AllHeaded(priorRows, priorHead);
    table := map[];
    TracksNothing();
    assert rows[..0] == [];
    var i := 0;
    while i < |priorRows|
      invariant 0 <= i <= |priorRows| && Tracks(table, [], rows[..i])
    {
      var r := Headed(priorRows[i], priorHead);
      TracksRow(table, rows[..i], r);
      assert rows[..i] + [r] == rows[..i + 1];
      table := table[RowId(r) := At(table, RowId(r)) + [Slot(r, false)]];
      i := i + 1;
    }
    assert rows[..i] == rows;
  }

  method FirstUnmatched(slots: seq<Slot>) returns (r: Option<nat>)
    ensures r.Some? ==> r.value < |slots| && !slots[r.value].matched && forall i :: 0 <= i < r.value ==>
      slots[i].matched
    ensures r.None? ==> forall i :: 0 <= i < |slots| ==> slots[i].matched
  {
    var i := 0;
    while i < |slots|
      invariant 0 <= i <= |slots| && forall j :: 0 <= j < i ==> slots[j].matched
    {
      if !slots[i].matched {
        return Some(i);
      }
      i := i + 1;
    }
    r := None;
  }

  lemma FirstFree(slots: seq<Slot>, same: seq<Finding>, own: seq<Prior>, m: Option<nat>)
    requires Tracked(slots, same, own)
    requires m.Some? ==> m.value < |slots| && !slots[m.value].matched && forall i :: 0 <= i < m.value ==>
      slots[i].matched
    requires m.None? ==> forall i :: 0 <= i < |slots| ==> slots[i].matched
    ensures m == if |same| < |own| then Some(|same|) else None
  {
    if |same| < |own| {
      assert !slots[|same|].matched;
    }
  }

  /** The slots of an identity after its next finding. */
  function Next(slots: seq<Slot>, n: nat): seq<Slot> {
    if n < |slots| then slots[n := slots[n].(matched := true)] else slots
  }

  lemma TracksNext(table: Table, after: Table, before: seq<Finding>, f: Finding, rows: seq<Prior>)
    requires Tracks(table, before, rows)
    requires var id := IdOf(f);
      && At(after, id) == Next(At(table, id), |Same(before, id)|)
      && (forall other :: other != id ==> At(after, other) == At(table, other))
    ensures Tracks(after, before + [f], rows)
  {
    hide Identity, Same, Rows, At, IdOf;
    forall other
      ensures Tracked(At(after, other), Same(before + [f], other), Rows(rows, other))
    {
      SameSnoc(before, f, other);
      assert Tracked(At(table, other), Same(before, other), Rows(rows, other));
    }
  }

  /** Matches one finding with the first row of its identity that is not matched yet. */
  method MatchOne(table0: Table, cur: Finding, ghost before: seq<Finding>, ghost rows: seq<Prior>)
    returns (table: Table, partner: Option<Prior>)
    requires Tracks(table0, before, rows)
    ensures Tracks(table, before + [cur], rows) && partner == Partner(before + [cur], rows)
  {
    hide Identity, Same, Rows, IdOf;
    var id := IdOf(cur);
    var slots := At(table0, id);
    var m := FirstUnmatched(slots);
    assert Tracked(slots, Same(before, id), Rows(rows, id));
    FirstFree(slots, Same(before, id), Rows(rows, id), m);
    assert (before + [cur])[..|before|] == before;
    table, partner := table0, None;
    if m.Some? {
      partner := Some(slots[m.value].row);
      table := table[id := slots[m.value := slots[m.value].(matched := true)]];
    }
    TracksNext(table0, table, before, cur, rows);
  }

  method MatchAll(table0: Table, current: seq<Finding>, ghost rows: seq<Prior>)
    returns (table: Table, persisting: seq<Persisting>, added: seq<Finding>)
    requires Tracks(table0, [], rows)
    ensures Tracks(table, current, rows)
    ensures persisting == PersistingOf(current, rows) && added == NewOf(current, rows)
  {
    hide Tracks, Partner;
    table, persisting, added := table0, [], [];
    var i := 0;
    assert current[..0] == [];
    while i < |current|
      invariant 0 <= i <= |current| && Tracks(table, current[..i], rows)
      invariant persisting == PersistingOf(current[..i], rows) && added == NewOf(current[..i], rows)
    {
      var cur := current[i];
      var partner;
      table, partner := MatchOne(table, cur, current[..i], rows);
      assert current[..i] + [cur] == current[..i + 1] && current[..i + 1][..i] == current[..i];
      match partner {
        case Some(r) => persisting := persisting + [Persist(cur, r)];
        case None => added := added + [cur];
      }
      i := i + 1;
    }
    assert current[..i] == current;
  }

  function ToFixed(r: Prior): Fixed {
    Fixed(r.title, r.file, r.severity, r.headSha)
  }

  function AllFixed(rows: seq<Prior>): (r: seq<Fixed>)
    ensures |r| == |rows|
    ensures forall i :: 0 <= i < |rows| ==> r[i] == ToFixed(rows[i])
  {
    seq(|rows|, i requires 0 <= i < |rows| => ToFixed(rows[i]))
  }

  /** The rows of the slots that are not matched. */
  function Open(slots: seq<Slot>): seq<Prior> {
    if slots == [] then []
    else if slots[|slots| - 1].matched then Open(slots[..|slots| - 1])
    else Open(slots[..|slots| - 1]) + [slots[|slots| - 1].row]
  }

  lemma {:induction false} OpenIsRest(slots: seq<Slot>, same: seq<Finding>, own: seq<Prior>)
    requires Tracked(slots, same, own)
    ensures Open(slots) == own[Lesser(|same|, |own|)..]
  {
    if slots != [] {
      OpenIsRest(slots[..|slots| - 1], same, own[..|own| - 1]);
    }
  }

  lemma {:induction false} RowsOfOne(rows: seq<Prior>, id: string, other: string)
    requires forall i :: 0 <= i < |rows| ==> RowId(rows[i]) == id
    ensures Rows(rows, other) == if other == id then rows else []
  {
    hide Identity;
    if rows != [] {
      RowsOfOne(rows[..|rows| - 1], id, other);
    }
  }

  lemma {:induction false} RowsConcat(a: seq<Prior>, b: seq<Prior>, id: string)
    ensures Rows(a + b, id) == Rows(a, id) + Rows(b, id)
  {
    hide Identity;
    if b == [] {
      assert a + b == a;
    } else {
      RowsConcat(a, b[..|b| - 1], id);
      assert (a + b)[..|a + b| - 1] == a + b[..|b| - 1];
    }
  }

  /** The slots of one identity that are not matched, in order. */
  method Leftover(slots: seq<Slot>) returns (gone: seq<Prior>)
    ensures gone == Open(slots)
  {
    gone := [];
    var i := 0;
    assert slots[..0] == [];
    while i < |slots|
      invariant 0 <= i <= |slots| && gone == Open(slots[..i])
    {
      assert slots[..i + 1][..i] == slots[..i];
      if !slots[i].matched {
        gone := gone + [slots[i].row];
      }
      i := i + 1;
    }
    assert slots[..i] == slots;
  }

  /** `gone` holds the unmatched rows of every identity but those in `ids`. */
  ghost predicate Collected(gone: seq<Prior>, ids: set<string>, current: seq<Finding>, rows: seq<Prior>) {
    forall id :: Rows(gone, id) == if id in ids then [] else Rows(rows, id)[Pairs(current, rows, id)..]
  }

  lemma NothingCollected(table: Table, current: seq<Finding>, rows: seq<Prior>)
    requires Tracks(table, current, rows)
    ensures Collected([], table.Keys, current, rows)
  {
    hide Identity, Same, Pairs;
    forall id
      ensures Rows([], id) == if id in table.Keys then [] else Rows(rows, id)[Pairs(current, rows, id)..]
    {
      assert Tracked(At(table, id), Same(current, id), Rows(rows, id));
    }
  }

  lemma RestOfSlots(table: Table, id: string, current: seq<Finding>, rows: seq<Prior>)
    requires Tracks(table, current, rows) && id in table
    ensures Open(table[id]) == Rows(rows, id)[Pairs(current, rows, id)..]
    ensures forall i :: 0 <= i < |Open(table[id])| ==> RowId(Open(table[id])[i]) == id
  {
    hide Identity, Same, Rows, Open, RowId;
    assert Tracked(At(table, id), Same(current, id), Rows(rows, id));
    OpenIsRest(table[id], Same(current, id), Rows(rows, id));
    RowsHaveId(rows, id);
  }

  lemma CollectNext(gone: seq<Prior>, ids: set<string>, id: string, table: Table, current: seq<Finding>,
      rows: seq<Prior>)
    requires Collected(gone, ids, current, rows) && id in ids && id in table && Tracks(table, current, rows)
    ensures Collected(gone + Open(table[id]), ids - {id}, current, rows)
  {
    hide Identity, Same, Rows, Open, Tracks, RowId, Pairs;
    var own := Open(table[id]);
    RestOfSlots(table, id, current, rows);
    forall other
      ensures Rows(gone + own, other) == if other in ids - {id} then []
        else Rows(rows, other)[Pairs(current, rows, other)..]
    {
      RowsConcat(gone, own, other);
      RowsOfOne(own, id, other);
    }
  }

  /** The rows left over, identity by identity, in any order of the identities. */
  method CollectFixed(table: Table, ghost current: seq<Finding>, ghost rows: seq<Prior>) returns (gone: seq<Prior>)
    requires Tracks(table, current, rows)
    ensures Unmatched(gone, current, rows)
  {
    hide Tracks, Open, Rows, Same, Pairs;
    gone := [];
    var ids := table.Keys;
    NothingCollected(table, current, rows);
    while ids != {}
      invariant ids <= table.Keys && Collected(gone, ids, current, rows)
      decreases |ids|
    {
      var id :| id in ids;
      var own := Leftover(table[id]);
      CollectNext(gone, ids, id, table, current, rows);
      ids := ids - {id};
      gone := gone + own;
    }
  }

  /** Classifies the current findings against the rows recorded for the prior head. `gone` are the rows that
      the fixed findings report. */
  method ClassifyAgainstPrior(current: seq<Finding>, priorHead: string, priorRows: seq<Prior>)
    returns (result: Classified, gone: seq<Prior>)
    ensures var rows := AllHeaded(priorRows, priorHead);
      && result.persisting == PersistingOf(current, rows) && result.added == NewOf(current, rows)
      && result.gone == AllFixed(gone) && Unmatched(gone, current, rows)
      && multiset(MatchedOf(current, rows)) + multiset(gone) == multiset(rows)
    ensures |result.gone| == |gone| && forall i :: 0 <= i < |gone| ==>
      && result.gone[i].title == gone[i].title && result.gone[i].file == gone[i].file
      && result.gone[i].severity == gone[i].severity && result.gone[i].priorSha == gone[i].headSha
  {
    ghost var rows := AllHeaded(priorRows, priorHead);
    var table := BuildTable(priorHead, priorRows);
    var persisting, added;
    table, persisting, added := MatchAll(table, current, rows);
    gone := CollectFixed(table, current, rows);
    PriorPartitioned(current, rows, gone);
    result := Classified(persisting, AllFixed(gone), added);
  }
}
