/** pkg/server/decision_ledger.go: at most one decision per pull request and head. The class is the
    ledger; the state machine below it runs any number of concurrent, crashing PublishDecision calls. */
module Decisions {
  import opened Text
  import opened TextLaws

  datatype PRKey = PRKey(host: string, repoID: int, number: int)

  datatype Key = Key(pr: PRKey, head: string)

  datatype DecisionStatus = Claimed | Published | Unsure

  datatype DecisionRecord = DecisionRecord(
    event: string,
    jobID: string,
    reviewID: int,
    status: DecisionStatus,
    publishedAt: Option<int>,
    error: string)

  type Records = map<Key, DecisionRecord>

  datatype Claim = Refused | Duplicate(existing: DecisionRecord) | New(record: DecisionRecord)

  /** A claim is filed under the host without surrounding white space. */
  function ClaimKey(pr: PRKey, head: string): Key {
    Key(pr.(host := TrimSpace(pr.host)), head)
  }

  function EventName(event: string): string {
    ToUpper(TrimSpace(event))
  }

  predicate Claimable(pr: PRKey, head: string, event: string) {
    && TrimSpace(pr.host) != "" && pr.repoID > 0 && pr.number > 0
    && ValidOID(head)
    && (EventName(event) == "APPROVE" || EventName(event) == "REQUEST_CHANGES")
  }

  function ClaimResult(records: Records, pr: PRKey, head: string, event: string, jobID: string): Claim {
    var key := ClaimKey(pr, head);
    if !Claimable(pr, head, event) then Refused
    else if key in records then Duplicate(records[key])
    else New(DecisionRecord(EventName(event), jobID, 0, Claimed, None, ""))
  }

  function AfterClaim(records: Records, pr: PRKey, head: string, event: string, jobID: string): Records {
    match ClaimResult(records, pr, head, event, jobID)
    case New(r) => records[ClaimKey(pr, head) := r]
    case _ => records
  }

  function AfterPublish(records: Records, key: Key, reviewID: int, now: int): Records {
    if key !in records then records
    else records[key := records[key].(status := Published, reviewID := reviewID, publishedAt := Some(now), error := "")]
  }

  function AfterUncertain(records: Records, key: Key, reason: string): Records {
    if key !in records then records
    else records[key := records[key].(status := Unsure, error := reason)]
  }

  predicate Expired(r: DecisionRecord, cutoff: int) {
    r.status == Published && r.publishedAt.Some? && r.publishedAt.value < cutoff
  }

  /** What a prune deletes, walking the keys in cursor order: the first `limit` expired records. */
  function PruneList(records: Records, order: seq<Key>, cutoff: int, limit: nat): (r: seq<Key>)
    ensures |r| <= limit
    ensures forall k :: k in r ==> k in records && Expired(records[k], cutoff)
  {
    if order == [] || limit == 0 then []
    else if order[0] in records && Expired(records[order[0]], cutoff) then
      [order[0]] + PruneList(records, order[1..], cutoff, limit - 1)
    else PruneList(records, order[1..], cutoff, limit)
  }

  /** A walk that has chosen some keys looks at one more. */
  lemma PruneStep(records: Records, order: seq<Key>, i: nat, cutoff: int, doomed: seq<Key>, limit: nat)
    requires i < |order| && |doomed| < limit
    ensures
      var next := if order[i] in records && Expired(records[order[i]], cutoff) then doomed + [order[i]] else doomed;
      doomed + PruneList(records, order[i..], cutoff, limit - |doomed|)
      == next + PruneList(records, order[i + 1..], cutoff, limit - |next|)
  {
    hide Expired;
    assert order[i..][1..] == order[i + 1..] && order[i..][0] == order[i];
  }

  lemma PruneEnds(records: Records, order: seq<Key>, cutoff: int, limit: nat)
    requires order == [] || limit == 0
    ensures PruneList(records, order, cutoff, limit) == []
  {
  }

  function KeysOf(ks: seq<Key>): set<Key> {
    set k | k in ks
  }

  function PruneLimit(limit: int): nat {
    if limit <= 0 then 128 else limit
  }

  /** A full commit ID: 40 or 64 digits or letters from a to f. */
  predicate CommitID(head: string) {
    (|head| == 40 || |head| == 64) && forall i :: 0 <= i < |head| ==> head[i] in "0123456789abcdef"
  }

  lemma HexDigit(c: char)
    ensures c in "0123456789abcdef" <==> '0' <= c <= '9' || 'a' <= c <= 'f'
  {
    var digits := "0123456789abcdef";
    if '0' <= c <= '9' {
      assert digits[c as int - '0' as int] == c;
    } else if 'a' <= c <= 'f' {
      assert digits[10 + (c as int - 'a' as int)] == c;
    }
  }

  lemma CommitIDIff(head: string)
    ensures ValidOID(head) <==> CommitID(head)
  {
    forall i | 0 <= i < |head|
      ensures head[i] in "0123456789abcdef" <==> '0' <= head[i] <= '9' || 'a' <= head[i] <= 'f'
    {
      HexDigit(head[i]);
    }
  }

  /** A word in capitals is what the event name comes to exactly if the event is that word, in any case of
      letters. */
  lemma NameIff(event: string, word: string)
    requires Bare(event) && forall i :: 0 <= i < |word| ==> !('a' <= word[i] <= 'z')
    ensures EventName(event) == word <==> SameLetters(event, word)
  {
    TrimSpaceIs("", event, "");
    assert "" + event + "" == event;
    UpperIs(event);
    hide TrimSpace;
    if SameLetters(event, word) {
      assert forall i :: 0 <= i < |word| ==> ToUpper(event)[i] == word[i];
    }
  }

  /** The verdicts of a review. */
  predicate IsVerdict(event: string) {
    SameLetters(event, "APPROVE") || SameLetters(event, "REQUEST_CHANGES")
  }

  /** What a claim comes to, by host and event without the white space around them: it is refused unless it
      names a pull request, a commit and a verdict; a record under this host, request and commit makes it a
      duplicate; and otherwise the record filed is this. */
  lemma ClaimIs(records: Records, a: string, host: string, b: string, repoID: int, number: int, head: string,
      c: string, event: string, d: string, jobID: string)
    requires Blank(a) && Bare(host) && Blank(b) && Blank(c) && Bare(event) && Blank(d)
    ensures var key := Key(PRKey(host, repoID, number), head);
      var claim := ClaimResult(records, PRKey(a + host + b, repoID, number), head, c + event + d, jobID);
      if host == "" || repoID <= 0 || number <= 0 || !CommitID(head) || !IsVerdict(event) then claim == Refused
      else if key in records then claim == Duplicate(records[key])
      else
        && claim.New? && claim.record.jobID == jobID && claim.record.reviewID == 0
        && claim.record.status == Claimed && claim.record.publishedAt == None && claim.record.error == ""
        && claim.record.event == if SameLetters(event, "APPROVE") then "APPROVE" else "REQUEST_CHANGES"
  {
    TrimSpaceIs(a, host, b);
    EventIs(c, event, d);
    CommitIDIff(head);
    hide TrimSpace, EventName, ValidOID, CommitID, SameLetters, IsVerdict;
  }

  lemma EventIs(c: string, event: string, d: string)
    requires Blank(c) && Bare(event) && Blank(d)
    ensures EventName(c + event + d) == "APPROVE" || EventName(c + event + d) == "REQUEST_CHANGES" <==> IsVerdict(event)
    ensures IsVerdict(event) ==>
      EventName(c + event + d) == if SameLetters(event, "APPROVE") then "APPROVE" else "REQUEST_CHANGES"
  {
    TrimSpaceIs(c, event, d);
    TrimSpaceIs("", event, "");
    assert "" + event + "" == event;
    NameIff(event, "APPROVE");
    NameIff(event, "REQUEST_CHANGES");
    hide TrimSpace, ToUpper, SameLetters;
    assert EventName(c + event + d) == EventName(event);
  }

  /** On the fields of the record: published, at a known time before the cutoff. */
  predicate PublishedBefore(r: DecisionRecord, cutoff: int) {
    match r.publishedAt
    case None => false
    case Some(t) => r.status == Published && t < cutoff
  }

  /** A prune takes only records published before the cutoff; and all of those, unless it reaches its limit. */
  lemma {:induction false} PruneTakesOld(records: Records, order: seq<Key>, cutoff: int, limit: nat)
    ensures var doomed := PruneList(records, order, cutoff, limit);
      && (forall k :: k in doomed ==> k in order && k in records && PublishedBefore(records[k], cutoff))
      && (|doomed| < limit ==>
            forall k :: k in order && k in records && PublishedBefore(records[k], cutoff) ==> k in doomed)
  {
    if order != [] && limit > 0 {
      var key := order[0];
      PruneTakesOld(records, order[1..], cutoff,
        if key in records && Expired(records[key], cutoff) then limit - 1 else limit);
      assert forall k :: k in order <==> k == key || k in order[1..];
    }
  }

  /** What a prune leaves: every record that is not published, or not before the cutoff, and no other unless the
      limit is reached. */
  predicate Pruned(before: Records, after: Records, order: seq<Key>, cutoff: int, deleted: nat, limit: int) {
    && deleted <= limit
    && (forall k :: k in after ==> k in before && after[k] == before[k])
    && (forall k :: k in before && !PublishedBefore(before[k], cutoff) ==> k in after)
    && (deleted < limit ==> forall k :: k in order && k in before && PublishedBefore(before[k], cutoff) ==> k !in after)
  }

  lemma PruneIs(records: Records, order: seq<Key>, cutoff: int, limit: int)
    ensures var doomed := PruneList(records, order, cutoff, PruneLimit(limit));
      Pruned(records, records - KeysOf(doomed), order, cutoff, |doomed|, if limit <= 0 then 128 else limit)
  {
    PruneTakesOld(records, order, cutoff, PruneLimit(limit));
    hide PruneList, PublishedBefore;
  }

  class DecisionLedger {
    var records: Records

    method ClaimDecision(pr: PRKey, head: string, event: string, jobID: string) returns (c: Claim)
      modifies this
      ensures c == ClaimResult(old(records), pr, head, event, jobID)
      ensures records == AfterClaim(old(records), pr, head, event, jobID)
    {
      hide TrimSpace, ToUpper, ValidOID;
      var host := TrimSpace(pr.host);
      if host == "" || pr.repoID <= 0 || pr.number <= 0 || !ValidOID(head) {
        return Refused;
      }
      var name := EventName(event);
      if name != "APPROVE" && name != "REQUEST_CHANGES" {
        return Refused;
      }
      var key := Key(pr.(host := host), head);
      if key in records {
        return Duplicate(records[key]);
      }
      c := New(DecisionRecord(name, jobID, 0, Claimed, None, ""));
      records := records[key := c.record];
    }

    /** Both recording calls file under the host as given. */
    method RecordPublished(pr: PRKey, head: string, reviewID: int, now: int) returns (found: bool)
      modifies this
      ensures found == (Key(pr, head) in old(records))
      ensures records == AfterPublish(old(records), Key(pr, head), reviewID, now)
      ensures found ==>
        var was := old(records)[Key(pr, head)];
        records == old(records)[Key(pr, head) :=
          DecisionRecord(was.event, was.jobID, reviewID, Published, Some(now), "")]
    {
      var key := Key(pr, head);
      if key !in records {
        return false;
      }
      var r := records[key].(status := Published, reviewID := reviewID, publishedAt := Some(now), error := "");
      records := records[key := r];
      return true;
    }

    method MarkUncertain(pr: PRKey, head: string, reason: string) returns (found: bool)
      modifies this
      ensures found == (Key(pr, head) in old(records))
      ensures records == AfterUncertain(old(records), Key(pr, head), reason)
      ensures found ==>
        var was := old(records)[Key(pr, head)];
        records == old(records)[Key(pr, head) :=
          DecisionRecord(was.event, was.jobID, was.reviewID, Unsure, was.publishedAt, reason)]
    {
      var key := Key(pr, head);
      if key !in records {
        return false;
      }
      records := records[key := records[key].(status := Unsure, error := reason)];
      return true;
    }

    /** `order` is the cursor's walk over the bucket. */
    method PruneTerminalDecisions(order: seq<Key>, cutoff: int, limit: int) returns (deleted: nat)
      modifies this
      ensures records == old(records) - KeysOf(PruneList(old(records), order, cutoff, PruneLimit(limit)))
      ensures deleted == |PruneList(old(records), order, cutoff, PruneLimit(limit))|
      ensures Pruned(old(records), records, order, cutoff, deleted, if limit <= 0 then 128 else limit)
    {
      PruneIs(records, order, cutoff, limit);
      hide Expired, PruneList, Pruned, KeysOf;
      var most := PruneLimit(limit);
      var doomed: seq<Key> := [];
      var i := 0;
      assert order[0..] == order;
      while i < |order| && |doomed| < most
        invariant i <= |order| && |doomed| <= most && records == old(records)
        invariant PruneList(records, order, cutoff, most) == doomed
          + PruneList(records, order[i..], cutoff, most - |doomed|)
      {
        PruneStep(records, order, i, cutoff, doomed, most);
        if order[i] in records && Expired(records[order[i]], cutoff) {
          doomed := doomed + [order[i]];
        }
        i := i + 1;
      }
      PruneEnds(records, order[i..], cutoff, most - |doomed|);
      assert PruneList(records, order, cutoff, most) == doomed;
      records := records - KeysOf(doomed);
      deleted := |doomed|;
    }

    /** One call, uninterrupted: at most one POST, and none for a duplicate. `post` is what GitHub answers. */
    method PublishDecision(pr: PRKey, head: string, event: string, jobID: string, post: PostOutcome, now: int)
      returns (posts: nat, c: Claim)
      modifies this
      ensures c == ClaimResult(old(records), pr, head, event, jobID)
      ensures posts == if c.New? then 1 else 0
      ensures records == Alone(old(records), pr, head, event, jobID, post, now).records
    {
      hide Alone, ClaimResult, AfterPublish, AfterUncertain;
      AloneRecords(records, pr, head, event, jobID, post, now);
      posts := 0;
      c := ClaimDecision(pr, head, event, jobID);
      if !c.New? {
        return;
      }
      posts := 1;
      match post
      case Success(reviewID) =>
        var _ := RecordPublished(pr, head, reviewID, now);
      case Ambiguous(reason) =>
        var _ := MarkUncertain(pr, head, reason);
      case Rejected =>
    }
  }

  // ----- Concurrent calls -----

  datatype PostOutcome = Success(reviewID: int) | Ambiguous(reason: string) | Rejected

  /** Where a call stands: it holds a fresh claim, or it has posted and knows the outcome. */
  datatype Phase = Holding | Answered(outcome: PostOutcome)

  datatype Call = Call(pr: PRKey, head: string, phase: Phase)

  /** The ledger, the calls in flight, and the counts of POSTs issued and records pruned, per key. */
  datatype State = State(records: Records, calls: map<nat, Call>, posts: multiset<Key>, prunes: multiset<Key>)

  datatype Action =
    | Begin(p: nat, pr: PRKey, head: string, event: string, jobID: string)
    | Post(p: nat, outcome: PostOutcome)
    | Record(p: nat, now: int)
    | Crash(p: nat)
    | Prune(order: seq<Key>, cutoff: int, limit: int)

  const EMPTY := State(map[], map[], multiset{}, multiset{})

  function KeyOf(c: Call): Key {
    ClaimKey(c.pr, c.head)
  }

  /** One atomic step of one call, or a prune; a step that is not enabled changes nothing. */
  function Next(s: State, a: Action): State {
    match a
    case Begin(p, pr, head, event, jobID) =>
      if p in s.calls then s
      else
        var claimed := ClaimResult(s.records, pr, head, event, jobID).New?;
        s.(records := AfterClaim(s.records, pr, head, event, jobID),
           calls := if claimed then s.calls[p := Call(pr, head, Holding)] else s.calls)
    case Post(p, outcome) =>
      if p !in s.calls || !s.calls[p].phase.Holding? then s
      else s.(calls := s.calls[p := s.calls[p].(phase := Answered(outcome))],
              posts := s.posts + multiset{KeyOf(s.calls[p])})
    case Record(p, now) =>
      if p !in s.calls || s.calls[p].phase.Holding? then s
      else
        var c := s.calls[p];
        var key := Key(c.pr, c.head);
        s.(calls := s.calls - {p},
           records := match c.phase.outcome
             case Success(id) => AfterPublish(s.records, key, id, now)
             case Ambiguous(reason) => AfterUncertain(s.records, key, reason)
             case Rejected => s.records)
    case Crash(p) => s.(calls := s.calls - {p})
    case Prune(order, cutoff, limit) =>
      var doomed := KeysOf(PruneList(s.records, order, cutoff, PruneLimit(limit)));
      s.(records := s.records - doomed, prunes := s.prunes + multiset(doomed))
  }

  function Run(s: State, actions: seq<Action>): State {
    if actions == [] then s else Next(Run(s, actions[..|actions| - 1]), actions[|actions| - 1])
  }

  /** A single call from an idle ledger. */
  function Alone(records: Records, pr: PRKey, head: string, event: string, jobID: string, post: PostOutcome,
      now: int): State {
    Next(Next(Next(State(records, map[], multiset{}, multiset{}), Begin(0, pr, head, event, jobID)), Post(0, post)),
      Record(0, now))
  }

  lemma AloneRecords(records: Records, pr: PRKey, head: string, event: string, jobID: string, post: PostOutcome,
      now: int)
    ensures Alone(records, pr, head, event, jobID, post, now).records ==
      if !ClaimResult(records, pr, head, event, jobID).New? then records
      else
        var claimed := AfterClaim(records, pr, head, event, jobID);
        match post
        case Success(id) => AfterPublish(claimed, Key(pr, head), id, now)
        case Ambiguous(reason) => AfterUncertain(claimed, Key(pr, head), reason)
        case Rejected => claimed
  {
    hide ClaimResult, AfterPublish, AfterUncertain, KeyOf, ClaimKey;
    var s0 := State(records, map[], multiset{}, multiset{});
    var s1 := Next(s0, Begin(0, pr, head, event, jobID));
    if ClaimResult(records, pr, head, event, jobID).New? {
      assert 0 in s1.calls && s1.calls[0] == Call(pr, head, Holding)
        && s1.records == AfterClaim(records, pr, head, event, jobID);
      hide AfterClaim;
      var s2 := Next(s1, Post(0, post));
      assert 0 in s2.calls && s2.calls[0] == Call(pr, head, Answered(post)) && s2.records == s1.records;
    } else {
      assert s1 == s0;
    }
  }

  function Present(s: State, k: Key): nat {
    if k in s.records then 1 else 0
  }

  /** Every call in flight has its own claimed record, and the POSTs issued for a key are covered by its
      prunes and its record, with one to spare while a call still holds its claim. */
  ghost predicate Inv(s: State) {
    && (forall k :: k in s.records ==> TrimSpace(k.pr.host) == k.pr.host)
    && (forall p :: p in s.calls ==> KeyOf(s.calls[p]) in s.records && s.records[KeyOf(s.calls[p])].status == Claimed)
    && (forall p, q :: p in s.calls && q in s.calls && KeyOf(s.calls[p]) == KeyOf(s.calls[q]) ==> p == q)
    && (forall k :: s.posts[k] <= s.prunes[k] + Present(s, k))
    && (forall p :: p in s.calls && s.calls[p].phase.Holding? ==>
      s.posts[KeyOf(s.calls[p])] <= s.prunes[KeyOf(s.calls[p])])
  }

  /** Trimming twice is trimming once. */
  lemma TrimTwice(s: string)
    ensures TrimSpace(TrimSpace(s)) == TrimSpace(s)
  {
    TrimmedEnds(s);
  }

  lemma NextKeepsInv(s: State, a: Action)
    requires Inv(s)
    ensures Inv(Next(s, a))
  {
    hide Inv, Next;
    match a
    case Begin(p, pr, head, event, jobID) => BeginKeepsInv(s, p, pr, head, event, jobID);
    case Post(p, outcome) => PostKeepsInv(s, p, outcome);
    case Record(p, now) => RecordKeepsInv(s, p, now);
    case Crash(p) => CrashKeepsInv(s, p);
    case Prune(order, cutoff, limit) => PruneKeepsInv(s, order, cutoff, limit);
  }

  lemma BeginKeepsInv(s: State, p: nat, pr: PRKey, head: string, event: string, jobID: string)
    requires Inv(s)
    ensures Inv(Next(s, Begin(p, pr, head, event, jobID)))
  {
    hide TrimSpace, EventName, Claimable;
    TrimTwice(pr.host);
    var s' := Next(s, Begin(p, pr, head, event, jobID));
    forall k
      ensures s'.posts[k] <= s'.prunes[k] + Present(s', k)
    {
      assert s.posts[k] <= s.prunes[k] + Present(s, k);
    }
  }

  /** A post uses up the spare of its own key. */
  lemma PostKeepsInv(s: State, p: nat, outcome: PostOutcome)
    requires Inv(s)
    ensures Inv(Next(s, Post(p, outcome)))
  {
    hide TrimSpace;
    if p in s.calls && s.calls[p].phase.Holding? {
      var key := KeyOf(s.calls[p]);
      var s' := Next(s, Post(p, outcome));
      forall k
        ensures s'.posts[k] <= s'.prunes[k] + Present(s', k)
      {
        assert s.posts[k] <= s.prunes[k] + Present(s, k);
        assert s'.posts[k] == s.posts[k] + if k == key then 1 else 0;
      }
    }
  }

  lemma CrashKeepsInv(s: State, p: nat)
    requires Inv(s)
    ensures Inv(Next(s, Crash(p)))
  {
    hide TrimSpace;
    assert forall k :: Present(Next(s, Crash(p)), k) == Present(s, k);
  }

  /** A prune takes no claimed record, so no call in flight loses its own. */
  lemma PruneKeepsInv(s: State, order: seq<Key>, cutoff: int, limit: int)
    requires Inv(s)
    ensures Inv(Next(s, Prune(order, cutoff, limit)))
  {
    hide TrimSpace;
    var doomed := KeysOf(PruneList(s.records, order, cutoff, PruneLimit(limit)));
    var s' := Next(s, Prune(order, cutoff, limit));
    forall k
      ensures s'.posts[k] <= s'.prunes[k] + Present(s', k)
    {
      assert s.posts[k] <= s.prunes[k] + Present(s, k);
    }
  }

  /** Recording touches the call's own record, or nothing when the host was given with white space. */
  lemma RecordKeepsInv(s: State, p: nat, now: int)
    requires Inv(s)
    ensures Inv(Next(s, Record(p, now)))
  {
    hide TrimSpace;
    if p in s.calls {
      var c := s.calls[p];
      var key := Key(c.pr, c.head);
      if key in s.records {
        assert KeyOf(c) == key;
      }
    }
  }

  lemma {:induction false} RunKeepsInv(actions: seq<Action>)
    ensures Inv(Run(EMPTY, actions))
  {
    if actions != [] {
      RunKeepsInv(actions[..|actions| - 1]);
      NextKeepsInv(Run(EMPTY, actions[..|actions| - 1]), actions[|actions| - 1]);
    }
  }

  /** Under any interleaving of concurrent and crashing calls, the POSTs issued for a pull request and
      head never exceed its prunes plus one if a record exists. */
  lemma PostsBounded(actions: seq<Action>, k: Key)
    ensures var s := Run(EMPTY, actions); s.posts[k] <= s.prunes[k] + Present(s, k)
  {
    RunKeepsInv(actions);
  }

  datatype Standing = Absent | Has(status: DecisionStatus)

  function StandingOf(s: State, k: Key): Standing {
    if k in s.records then Has(s.records[k].status) else Absent
  }

  /** Records move from absent to claimed, from claimed to published or uncertain, and only published ones
      go back to absent. */
  predicate Moves(a: Standing, b: Standing) {
    || a == b
    || (a == Absent && b == Has(Claimed))
    || (a == Has(Claimed) && (b == Has(Published) || b == Has(Unsure)))
    || (a == Has(Published) && b == Absent)
  }

  lemma RecordsMove(actions: seq<Action>, a: Action, k: Key)
    ensures Moves(StandingOf(Run(EMPTY, actions), k), StandingOf(Next(Run(EMPTY, actions), a), k))
  {
    var s := Run(EMPTY, actions);
    RunKeepsInv(actions);
    hide TrimSpace, EventName, Run;
    match a
    case Record(p, now) =>
      if p in s.calls && Key(s.calls[p].pr, s.calls[p].head) in s.records {
        assert KeyOf(s.calls[p]) == Key(s.calls[p].pr, s.calls[p].head);
      }
    case _ =>
  }

  /** A published record stays as it is in every continuation whose prunes have a cutoff no later than its
      publication. */
  lemma {:induction false} RecentDecisionStays(s: State, actions: seq<Action>, k: Key, t: int)
    requires Inv(s) && k in s.records && s.records[k].status == Published && s.records[k].publishedAt == Some(t)
    requires forall i :: 0 <= i < |actions| && actions[i].Prune? ==> actions[i].cutoff <= t
    ensures var after := Run(s, actions); Inv(after) && k in after.records && after.records[k] == s.records[k]
  {
    if actions != [] {
      hide Inv, Next;
      var front, a := actions[..|actions| - 1], actions[|actions| - 1];
      RecentDecisionStays(s, front, k, t);
      RecentStep(Run(s, front), a, k, t);
      NextKeepsInv(Run(s, front), a);
    }
  }

  /** A prune step of the machine does what a prune of the ledger does. */
  lemma PruneStepIs(s: State, order: seq<Key>, cutoff: int, limit: int)
    ensures var after := Next(s, Prune(order, cutoff, limit)); var most := if limit <= 0 then 128 else limit;
      && after.calls == s.calls && after.posts == s.posts
      && Pruned(s.records, after.records, order, cutoff, |PruneList(s.records, order, cutoff, most)|, most)
  {
    PruneIs(s.records, order, cutoff, limit);
    hide PruneList, Pruned, KeysOf;
  }

  lemma RecentStep(s: State, a: Action, k: Key, t: int)
    requires Inv(s) && k in s.records && s.records[k].status == Published && s.records[k].publishedAt == Some(t)
    requires a.Prune? ==> a.cutoff <= t
    ensures k in Next(s, a).records && Next(s, a).records[k] == s.records[k]
  {
    hide TrimSpace, EventName, Claimable;
    assert ClaimKey(k.pr, k.head) == k;
  }

  /** A posted decision is recorded as published exactly when its host carries no surrounding white
      space. */
  lemma PublishedIffHostTrimmed(actions: seq<Action>, p: nat, now: int)
    requires var s := Run(EMPTY, actions);
      p in s.calls && s.calls[p].phase.Answered? && s.calls[p].phase.outcome.Success?
    ensures var s := Run(EMPTY, actions); var c := s.calls[p];
      StandingOf(Next(s, Record(p, now)), KeyOf(c)) ==
        if TrimSpace(c.pr.host) == c.pr.host then Has(Published) else Has(Claimed)
  {
    RunKeepsInv(actions);
    hide TrimSpace, Run;
  }

  // ----- Claims that stay claimed -----

  /** A call that files its outcome under the key, and has one to file or may still get one. */
  predicate CanSettle(c: Call, k: Key) {
    Key(c.pr, c.head) == k && (c.phase.Holding? || c.phase.outcome != Rejected)
  }

  ghost predicate Settling(s: State, k: Key) {
    exists p :: p in s.calls && CanSettle(s.calls[p], k)
  }

  predicate StaysClaimed(s: State, more: seq<Action>, k: Key) {
    StandingOf(Run(s, more), k) == Has(Claimed)
  }

  /** A later call for a claimed key is a duplicate. */
  lemma BeginKeepsStuck(s: State, p: nat, pr: PRKey, head: string, event: string, jobID: string, k: Key)
    requires Inv(s) && StandingOf(s, k) == Has(Claimed) && !Settling(s, k)
    ensures var s' := Next(s, Begin(p, pr, head, event, jobID));
      StandingOf(s', k) == Has(Claimed) && !Settling(s', k)
  {
    hide TrimSpace, EventName, Claimable;
    var s' := Next(s, Begin(p, pr, head, event, jobID));
    if Key(pr, head) == k {
      assert ClaimKey(pr, head) == k;
    }
    assert forall q :: q in s'.calls ==> !CanSettle(s'.calls[q], k);
  }

  lemma PrunesExpired(records: Records, order: seq<Key>, cutoff: int, limit: int)
    ensures forall k :: k in KeysOf(PruneList(records, order, cutoff, PruneLimit(limit))) ==>
      k in records && Expired(records[k], cutoff)
  {
  }

  /** A call that files under another key, or a refusal, leaves the claim alone. */
  lemma RecordKeepsStuck(s: State, p: nat, now: int, k: Key)
    requires Inv(s) && StandingOf(s, k) == Has(Claimed) && !Settling(s, k)
    ensures StandingOf(Next(s, Record(p, now)), k) == Has(Claimed) && !Settling(Next(s, Record(p, now)), k)
  {
    hide TrimSpace;
    var s' := Next(s, Record(p, now));
    assert forall q :: q in s'.calls ==> !CanSettle(s'.calls[q], k);
  }

  lemma QuietKeepsStuck(s: State, a: Action, k: Key)
    requires Inv(s) && StandingOf(s, k) == Has(Claimed) && !Settling(s, k) && (a.Post? || a.Crash? || a.Prune?)
    ensures StandingOf(Next(s, a), k) == Has(Claimed) && !Settling(Next(s, a), k)
  {
    hide TrimSpace, PruneList, AfterClaim, AfterPublish, AfterUncertain, ClaimResult;
    if a.Prune? {
      PrunesExpired(s.records, a.order, a.cutoff, a.limit);
    }
    var s' := Next(s, a);
    assert forall q :: q in s'.calls ==> !CanSettle(s'.calls[q], k);
  }

  /** A claim no call can settle stays so, and no prune takes it. */
  lemma NextKeepsStuck(s: State, a: Action, k: Key)
    requires Inv(s) && StandingOf(s, k) == Has(Claimed) && !Settling(s, k)
    ensures StandingOf(Next(s, a), k) == Has(Claimed) && !Settling(Next(s, a), k)
  {
    hide Inv, Next, StandingOf, Settling;
    match a
    case Begin(p, pr, head, event, jobID) => BeginKeepsStuck(s, p, pr, head, event, jobID, k);
    case Record(p, now) => RecordKeepsStuck(s, p, now, k);
    case _ => QuietKeepsStuck(s, a, k);
  }

  lemma {:induction false} StuckStays(s: State, more: seq<Action>, k: Key)
    requires Inv(s) && StandingOf(s, k) == Has(Claimed) && !Settling(s, k)
    ensures Inv(Run(s, more)) && StaysClaimed(s, more, k) && !Settling(Run(s, more), k)
  {
    hide Inv, Next, Settling;
    if more != [] {
      StuckStays(s, more[..|more| - 1], k);
      NextKeepsInv(Run(s, more[..|more| - 1]), more[|more| - 1]);
      NextKeepsStuck(Run(s, more[..|more| - 1]), more[|more| - 1], k);
    }
  }

  /** What a call that can settle the claim does next. */
  function Settle(p: nat, c: Call): seq<Action> {
    if c.phase.Holding? then [Post(p, Success(1)), Record(p, 0)] else [Record(p, 0)]
  }

  lemma RunTwo(s: State, a: Action, b: Action)
    ensures Run(s, [a]) == Next(s, a) && Run(s, [a, b]) == Next(Next(s, a), b)
  {
    hide Next;
    assert Run(s, []) == s && [a][..0] == [] && [a, b][..1] == [a];
    assert Run(s, [a]) == Next(s, a);
  }

  lemma RecordLeaves(s: State, p: nat, k: Key)
    requires k in s.records && p in s.calls && CanSettle(s.calls[p], k) && s.calls[p].phase.Answered?
    ensures StandingOf(Next(s, Record(p, 0)), k) != Has(Claimed)
  {
    hide TrimSpace;
  }

  lemma SettleLeaves(s: State, p: nat, k: Key)
    requires StandingOf(s, k) == Has(Claimed) && p in s.calls && CanSettle(s.calls[p], k)
    ensures !StaysClaimed(s, Settle(p, s.calls[p]), k)
  {
    var post, record := Post(p, Success(1)), Record(p, 0);
    hide Run, TrimSpace;
    if s.calls[p].phase.Holding? {
      RunTwo(s, post, record);
      RecordLeaves(Next(s, post), p, k);
    } else {
      RunTwo(s, record, record);
      RecordLeaves(s, p, k);
    }
  }

  /** After any run, a claimed key stays claimed whatever follows, exactly when no call in flight can still
      file an outcome under it. */
  lemma ClaimStaysIff(actions: seq<Action>, k: Key)
    requires StandingOf(Run(EMPTY, actions), k) == Has(Claimed)
    ensures (forall more :: StaysClaimed(Run(EMPTY, actions), more, k)) <==> !Settling(Run(EMPTY, actions), k)
  {
    RunKeepsInv(actions);
    hide Inv, Run, StandingOf, CanSettle;
    var s := Run(EMPTY, actions);
    if Settling(s, k) {
      var p :| p in s.calls && CanSettle(s.calls[p], k);
      SettleLeaves(s, p, k);
    } else {
      forall more
        ensures StaysClaimed(s, more, k)
      {
        StuckStays(s, more, k);
      }
    }
  }

  /** A call holds its claim for good exactly when its host carries surrounding white space, its outcome is
      a refusal, or both. */
  lemma HeldForGoodIff(actions: seq<Action>, p: nat)
    requires p in Run(EMPTY, actions).calls
    ensures var s := Run(EMPTY, actions); var c := s.calls[p];
      (forall more :: StaysClaimed(s, more, KeyOf(c)))
      <==> TrimSpace(c.pr.host) != c.pr.host || (c.phase.Answered? && c.phase.outcome == Rejected)
  {
    RunKeepsInv(actions);
    var s := Run(EMPTY, actions);
    var c := s.calls[p];
    assert StandingOf(s, KeyOf(c)) == Has(Claimed);
    ClaimStaysIff(actions, KeyOf(c));
    hide TrimSpace, Run, StaysClaimed;
    assert Settling(s, KeyOf(c)) <==> CanSettle(c, KeyOf(c)) by {
      forall q | q in s.calls && CanSettle(s.calls[q], KeyOf(c))
        ensures q == p
      {
        assert KeyOf(s.calls[q]) == KeyOf(c);
      }
    }
  }

  /** Any claimable request whose host carries surrounding white space reaches this: the review is posted,
      and the claim stays claimed for good. */
  lemma UntrimmedHostNeverSettles(pr: PRKey, head: string, event: string, jobID: string, reviewID: int)
    requires Claimable(pr, head, event) && TrimSpace(pr.host) != pr.host
    ensures var s := Run(EMPTY, [Begin(0, pr, head, event, jobID), Post(0, Success(reviewID))]);
      && s.posts[ClaimKey(pr, head)] == 1
      && forall more :: StaysClaimed(s, more, ClaimKey(pr, head))
  {
    hide TrimSpace, Claimable, StaysClaimed, Run;
    var begin, post := Begin(0, pr, head, event, jobID), Post(0, Success(reviewID));
    RunTwo(EMPTY, begin, post);
    var s := Run(EMPTY, [begin, post]);
    assert s.calls == map[0 := Call(pr, head, Answered(Success(reviewID)))];
    HeldForGoodIff([begin, post], 0);
    assert KeyOf(s.calls[0]) == ClaimKey(pr, head);
    forall more
      ensures StaysClaimed(s, more, ClaimKey(pr, head))
    {
      assert StaysClaimed(s, more, KeyOf(s.calls[0]));
    }
  }
}
