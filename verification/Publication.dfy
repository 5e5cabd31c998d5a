/** pkg/server/publication.go: publishing one comment per marker. The world is the durable store and
    GitHub; every call into it is one atomic step, after which others may act and the process may crash.
    A crash drops the locals of the running method and nothing else. */
module Publication {
  import opened Text
  import opened TextLaws
  import opened OwnedComments

  // ----- Records -----

  /** SHA-256 without collisions. */
  datatype Digest = Sha256(text: string)

  function DigestOf(s: string): Digest {
    Sha256(s)
  }

  datatype Status =
    | Queued | Running | Pending | InProgress | Superseding
    | Completed | Superseded | Uncertain | NeedsAttention | Failed

  datatype Action = ReviewOutput | StatusNote

  datatype OutputIntent = OutputIntent(
    jobId: string,
    action: Action,
    exactHead: string,
    body: string,
    commentId: nat,
    supersededBody: string,
    supersededDigest: Option<Digest>,
    status: Status)

  datatype Job = Job(
    id: string,
    automatic: bool,
    headSHA: string,
    generation: nat,
    status: Status,
    finished: bool,
    networkFetch: bool,
    error: string,
    statusCommentId: nat)

  datatype PRState = PRState(generation: nat, lastReviewedHead: string, latestHead: string, reservedSuccessor: bool)

  /** The store's records for one marker and its job, and the pull request as GitHub has it. */
  datatype World = World(
    comments: seq<Comment>,
    liveHead: string,
    saved: Option<OutputIntent>,
    job: Option<Job>,
    pr: Option<PRState>)

  function WithMarker(marker: string, body: string): (s: string)
    ensures Contains(s, marker)
  {
    if Contains(body, marker) then body
    else
      var s := body + "\n\n" + marker;
      assert Contains(s, marker) by {
        ContainsInfix(body + "\n\n", marker, "");
        assert (body + "\n\n") + marker + "" == s;
      }
      s
  }

  /** The body as it is if the marker stands in it, and otherwise with the marker after a blank line. */
  lemma MarkerAdded(marker: string, body: string)
    ensures var s := WithMarker(marker, body);
      && body <= s && Carries(s, marker)
      && (Carries(body, marker) ==> s == body)
      && (!Carries(body, marker) ==>
            && |s| == |body| + 2 + |marker| && StandsAt(s, marker, |body| + 2)
            && s[|body|] == '\n' && s[|body| + 1] == '\n')
  {
    ContainsIff(body, marker);
    ContainsIff(WithMarker(marker, body), marker);
    hide Contains;
  }

  const NOTE := "\n\n*(Note: Commit head moved during review publication. This review is superseded.)*"

  lemma ContainsLonger(s: string, sub: string, more: string)
    requires Contains(s, sub)
    ensures Contains(s + more, sub)
  {
    var i := Index(s, sub).value;
    assert s + more == s[..i] + sub + (s[i + |sub|..] + more);
    ContainsInfix(s[..i], sub, s[i + |sub|..] + more);
  }

  // ----- Owned comments -----

  function Mine(o: Owner, cs: seq<Comment>): seq<Comment> {
    if cs == [] then []
    else
      var last := cs[|cs| - 1];
      Mine(o, cs[..|cs| - 1]) + if o.Owns(last) then [last] else []
  }

  lemma {:induction false} MineMembers(o: Owner, cs: seq<Comment>, c: Comment)
    ensures c in Mine(o, cs) <==> c in cs && o.Owns(c)
  {
    hide Owner.Owns;
    if cs != [] {
      MineMembers(o, cs[..|cs| - 1], c);
      assert c in cs <==> c in cs[..|cs| - 1] || c == cs[|cs| - 1];
    }
  }

  /** The owned comments are those by the actor that carry the marker, each as often as it is listed. A
      stranger's comment is never one of them, whatever its body. */
  lemma {:induction false} MineIff(o: Owner, cs: seq<Comment>, c: Comment)
    ensures multiset(Mine(o, cs))[c] == if Ours(o, c) then multiset(cs)[c] else 0
    ensures Stranger(o.actor, c) || !Carries(c.body, o.marker) ==> c !in Mine(o, cs)
    ensures c in cs && !Stranger(o.actor, c) && Carries(c.body, o.marker) ==> c in Mine(o, cs)
  {
    if cs == [] {
    } else {
      var front, last := cs[..|cs| - 1], cs[|cs| - 1];
      MineIff(o, front, c);
      OwnsIff(o, last);
      OwnsIff(o, c);
      hide Owner.Owns, Stranger, Carries;
      assert cs == front + [last];
    }
    MineMembers(o, cs, c);
  }

  lemma {:induction false} MineNone(o: Owner, cs: seq<Comment>)
    ensures NoneOwned(o, cs, |cs|) <==> Mine(o, cs) == []
  {
    hide Owner.Owns;
    if cs != [] {
      MineNone(o, cs[..|cs| - 1]);
      assert NoneOwned(o, cs, |cs|) <==> NoneOwned(o, cs[..|cs| - 1], |cs| - 1) && !o.Owns(cs[|cs| - 1]);
    }
  }

  predicate UniqueIDs(cs: seq<Comment>) {
    forall i, j :: 0 <= i < j < |cs| ==> cs[i].id != cs[j].id
  }

  function EditAll(cs: seq<Comment>, id: nat, body: string): (r: seq<Comment>)
    ensures |r| == |cs| && forall i :: 0 <= i < |cs| ==>
      r[i] == if cs[i].id == id then cs[i].(body := body) else cs[i]
  {
    if cs == [] then []
    else
      var last := cs[|cs| - 1];
      EditAll(cs[..|cs| - 1], id, body) + [if last.id == id then last.(body := body) else last]
  }

  /** Editing the only owned comment leaves it the only one. */
  lemma {:induction false} MineEdited(o: Owner, cs: seq<Comment>, id: nat, body: string)
    requires UniqueIDs(cs) && Contains(body, o.marker)
    requires forall c :: c in cs && c.id == id ==> o.Owns(c)
    ensures |Mine(o, EditAll(cs, id, body))| == |Mine(o, cs)|
    ensures forall i :: 0 <= i < |Mine(o, cs)| ==>
      Mine(o, EditAll(cs, id, body))[i] ==
        if Mine(o, cs)[i].id == id then Mine(o, cs)[i].(body := body) else Mine(o, cs)[i]
  {
    hide Contains, EqualFold;
    if cs != [] {
      var front, last := cs[..|cs| - 1], cs[|cs| - 1];
      assert last in cs && forall c :: c in front ==> c in cs;
      MineEdited(o, front, id, body);
      assert EditAll(cs, id, body)[..|cs| - 1] == EditAll(front, id, body);
    }
  }

  // ----- What the outside may do -----

  /** Others may add, edit and delete comments that are not the actor's, move the head, and raise the
      generation. Only the service touches the records of its own marker. */
  predicate Rely(o: Owner, w: World, w': World) {
    && w'.saved == w.saved && w'.job == w.job
    && UniqueIDs(w'.comments) && Mine(o, w'.comments) == Mine(o, w.comments)
    && (w.pr.Some? ==> w'.pr.Some? && w'.pr.value.generation >= w.pr.value.generation)
  }

  // ----- Invariants -----

  /** The bodies a saved intent allows its comment to have. */
  predicate Allows(o: Owner, saved: OutputIntent, body: string) {
    || body == WithMarker(o.marker, saved.body)
    || body == saved.body
    || (saved.supersededDigest.Some? && DigestOf(body) == saved.supersededDigest.value)
  }

  ghost predicate IntentOk(o: Owner, i: OutputIntent) {
    && i.supersededDigest == (if i.supersededBody == "" then None else Some(DigestOf(i.supersededBody)))
    && (i.supersededBody != "" ==> Contains(i.supersededBody, o.marker))
  }

  /** At most one comment is owned; for a review output its body is one the saved intent allows. */
  ghost predicate WorldOk(o: Owner, review: bool, w: World) {
    && UniqueIDs(w.comments)
    && |Mine(o, w.comments)| <= 1
    && (forall c :: c in Mine(o, w.comments) ==> c.id > 0)
    && (w.saved.Some? ==> IntentOk(o, w.saved.value))
    && (review && Mine(o, w.comments) != [] ==>
      w.saved.Some? && Allows(o, w.saved.value, Mine(o, w.comments)[0].body))
  }

  lemma RelyKeeps(o: Owner, review: bool, w: World, w': World)
    requires WorldOk(o, review, w) && Rely(o, w, w')
    ensures WorldOk(o, review, w')
  {
  }

  // ----- What the store retains -----

  ghost predicate OwnedUnder(o: Owner, w: World, id: nat) {
    Mine(o, w.comments) != [] && Mine(o, w.comments)[0].id == id
  }

  /** A review intent may be overwritten by one with the same body, and a saved superseded body stays. */
  predicate Keeps(saved: Option<OutputIntent>, i: OutputIntent) {
    saved.Some? ==>
      && i.body == saved.value.body
      && (saved.value.supersededBody != "" ==> i.supersededBody == saved.value.supersededBody)
  }

  /** The comment on record is the owned one. */
  ghost predicate Anchored(o: Owner, w: World) {
    w.saved.Some? && w.saved.value.commentId > 0 && OwnedUnder(o, w, w.saved.value.commentId)
  }

  ghost predicate KeepsID(o: Owner, w: World, i: OutputIntent) {
    Anchored(o, w) ==> i.commentId == w.saved.value.commentId
  }

  /** What was saved for a review is still there later: body, superseded text and, if `id`, the ID of a
      comment that is owned. */
  ghost predicate Retains(o: Owner, w: World, w': World, id: bool) {
    w.saved.Some? ==>
      && w'.saved.Some? && Keeps(w.saved, w'.saved.value)
      && (id && Anchored(o, w) ==> Anchored(o, w') && w'.saved.value.commentId == w.saved.value.commentId)
  }

  lemma RetainsOn(o: Owner, a: World, b: World, c: World, id: bool)
    requires Retains(o, a, b, id) && Retains(o, b, c, id)
    ensures Retains(o, a, c, id)
  {
    hide OwnedUnder;
  }

  /** Steps that leave the record alone and keep an owned comment under its ID. */
  lemma SameRecordRetains(o: Owner, w: World, w': World, id: bool)
    requires w'.saved == w.saved && (Anchored(o, w) ==> OwnedUnder(o, w', w.saved.value.commentId))
    ensures Retains(o, w, w', id)
  {
    hide OwnedUnder;
  }

  lemma SaveRetains(o: Owner, w: World, w': World, i: OutputIntent, id: bool)
    requires w'.saved == Some(i) && w'.comments == w.comments && Keeps(w.saved, i) && (id ==> KeepsID(o, w, i))
    ensures Retains(o, w, w', id)
  {
    hide Mine;
  }

  /** What the service did, with the world right after it; a commit also keeps the pull request's record as
      it found it. */
  datatype Event =
    | Scanned(m: Match)
    | HeadRead(head: string)
    | StateRead(generation: Option<nat>)
    | IntentSaved
    | JobSaved
    | Created(id: nat)
    | Edited(id: nat)
    | Committed(status: Status, before: Option<PRState>)

  datatype Entry = Entry(event: Event, world: World)

  predicate Newer(generation: Option<nat>, job: Job) {
    generation.Some? && generation.value > job.generation
  }

  function GenerationOf(w: World): Option<nat> {
    if w.pr.Some? then Some(w.pr.value.generation) else None
  }

  ghost predicate Shows(o: Owner, w: World, id: nat, body: string) {
    var m := Mine(o, w.comments);
    |m| == 1 && m[0].id == id && m[0].body == body
  }

  /** The last `n` events before position `i`. */
  ghost predicate Before(log: seq<Entry>, i: int, events: seq<Event>) {
    |events| <= i <= |log| && forall k :: 0 <= k < |events| ==> log[i - |events| + k].event == events[k]
  }

  /** A create is preceded by an absent scan, then for a review output by a read of the exact head and of
      a generation that has not moved, and for a status by the durable intent. */
  ghost predicate CreateReady(o: Owner, review: bool, log: seq<Entry>, i: int, w: World, body: string) {
    && w.saved.Some?
    && (if review then
          && w.job.Some?
          && body == WithMarker(o.marker, w.saved.value.body)
          && (exists g :: !Newer(g, w.job.value)
                && Before(log, i, [Scanned(Absent), HeadRead(w.saved.value.exactHead), StateRead(g)]))
        else
          body == w.saved.value.body && Before(log, i, [Scanned(Absent), IntentSaved]))
  }

  /** An edit writes a body that the step before it made durable. */
  ghost predicate EditReady(review: bool, log: seq<Entry>, i: int, w: World, body: string) {
    && w.saved.Some? && Before(log, i, [IntentSaved])
    && body == if review then w.saved.value.supersededBody else w.saved.value.body
  }

  /** Completion follows, at once, a read of the exact head and of the generation, and the owned comment
      was there before those reads. */
  ghost predicate CompleteReady(o: Owner, log: seq<Entry>, i: int, head: string, id: nat, job: Job) {
    && (exists g :: !Newer(g, job) && Before(log, i, [HeadRead(head), StateRead(g)]))
    && i >= 2 && Mine(o, log[i - 2].world.comments) != [] && Mine(o, log[i - 2].world.comments)[0].id == id
  }

  /** The record reserves a review of `head`, under the next generation, and is otherwise as before. */
  predicate Reserves(before: Option<PRState>, after: Option<PRState>, head: string) {
    && after.Some? && after.value.latestHead == head && after.value.reservedSuccessor
    && (before.Some? ==>
          && after.value.generation == before.value.generation + 1
          && after.value.lastReviewedHead == before.value.lastReviewedHead)
    && (before.None? ==> after.value.generation == 1 && after.value.lastReviewedHead == "")
  }

  /** What superseding does to the record: an automatic job leaves a successor for the head read, if its
      comment was posted or the head moved; any other leaves the record alone. */
  predicate Succeeds(automatic: bool, posted: bool, moved: bool, head: string,
      before: Option<PRState>, after: Option<PRState>)
  {
    if automatic && (posted || moved) then Reserves(before, after, head) else after == before
  }

  /** What completion does to the record: the head is noted as reviewed, and nothing else changes. */
  predicate Reviewed(head: string, generation: nat, before: Option<PRState>, after: Option<PRState>) {
    && after.Some? && after.value.lastReviewedHead == head
    && (before.Some? ==>
          && after.value.generation == before.value.generation
          && after.value.latestHead == before.value.latestHead
          && after.value.reservedSuccessor == before.value.reservedSuccessor)
    && (before.None? ==>
          after.value.generation == generation && after.value.latestHead == "" && !after.value.reservedSuccessor)
  }

  /** Superseding follows a read of a head or generation that moved, with the superseded text already
      written if there is a comment. */
  ghost predicate SupersedeReady(log: seq<Entry>, i: int, exactHead: string, id: nat, job: Job,
      before: Option<PRState>, pr: Option<PRState>)
  {
    exists head, g :: (head != exactHead || Newer(g, job))
      && Before(log, i, if id == 0 then [Scanned(Absent), HeadRead(head), StateRead(g)]
                        else [HeadRead(head), StateRead(g), IntentSaved, Edited(id)])
      && Succeeds(job.automatic, id > 0, head != exactHead, head, before, pr)
  }

  /** A job that has come to an end. */
  predicate Ended(job: Job, status: Status) {
    job.status == status && job.finished && !job.networkFetch
  }

  /** The first `n` events hold no create. */
  predicate NoCreate(log: seq<Entry>, n: nat)
    requires n <= |log|
  {
    forall i :: 0 <= i < n ==> !log[i].event.Created?
  }

  ghost predicate EntryOk(o: Owner, review: bool, log: seq<Entry>, i: nat)
    requires i < |log|
  {
    var w := log[i].world;
    && WorldOk(o, review, w)
    && match log[i].event
       case Created(id) =>
         NoCreate(log, i)
         && Mine(o, w.comments) != [] && Shows(o, w, id, Mine(o, w.comments)[0].body)
         && CreateReady(o, review, log, i, w, Mine(o, w.comments)[0].body)
       case Edited(id) =>
         Mine(o, w.comments) != [] && Shows(o, w, id, Mine(o, w.comments)[0].body)
         && EditReady(review, log, i, w, Mine(o, w.comments)[0].body)
       case Committed(Completed, before) =>
         && w.saved.Some? && w.job.Some? && Ended(w.job.value, Completed) && w.saved.value.status == Completed
         && w.job.value.error == ""
         && (if w.saved.value.action == ReviewOutput
             then Reviewed(w.saved.value.exactHead, w.job.value.generation, before, w.pr) else w.pr == before)
         && CompleteReady(o, log, i, w.saved.value.exactHead, w.saved.value.commentId, w.job.value)
         && !Newer(GenerationOf(w), w.job.value)
         && Mine(o, w.comments) != [] && Mine(o, w.comments)[0].id == w.saved.value.commentId
       case Committed(Superseded, before) =>
         && w.saved.Some? && w.job.Some? && Ended(w.job.value, Superseded) && w.saved.value.status == Superseded
         && SupersedeReady(log, i, w.saved.value.exactHead, w.saved.value.commentId, w.job.value, before, w.pr)
         && (if w.saved.value.commentId == 0 then Mine(o, w.comments) == []
             else Shows(o, w, w.saved.value.commentId, w.saved.value.supersededBody))
       case Committed(status, before) =>
         w.pr == before && w.job.Some? && w.job.value.status == status && !w.job.value.finished
       case _ => true
  }

  ghost predicate GoodLog(o: Owner, review: bool, log: seq<Entry>) {
    forall i :: 0 <= i < |log| ==> EntryOk(o, review, log, i)
  }

  /** Everything saved at any point of the log is retained in the world. */
  ghost predicate Retained(o: Owner, log: seq<Entry>, w: World, id: bool) {
    forall i :: 0 <= i < |log| ==> Retains(o, log[i].world, w, id)
  }

  lemma RetainedBy(o: Owner, log: seq<Entry>, w: World, w': World, id: bool)
    requires Retained(o, log, w, id) && Retains(o, w, w', id)
    ensures Retained(o, log, w', id)
  {
    hide Retains;
    forall i | 0 <= i < |log|
      ensures Retains(o, log[i].world, w', id)
    {
      RetainsOn(o, log[i].world, w, w', id);
    }
  }

  lemma RetainedSnoc(o: Owner, log: seq<Entry>, e: Entry, id: bool)
    requires Retained(o, log, e.world, id)
    ensures Retained(o, log + [e], e.world, id)
  {
    hide Retains;
    SameRecordRetains(o, e.world, e.world, id);
  }

  lemma EntryKept(o: Owner, review: bool, log: seq<Entry>, e: Entry, i: nat)
    requires i < |log| && EntryOk(o, review, log, i)
    ensures EntryOk(o, review, log + [e], i)
  {
    hide WorldOk, Mine, Owner.Owns, Allows, WithMarker, Shows;
    var longer := log + [e];
    assert forall es :: Before(log, i, es) ==> Before(longer, i, es);
  }

  lemma LogGrows(o: Owner, review: bool, log: seq<Entry>, e: Entry)
    requires GoodLog(o, review, log) && EntryOk(o, review, log + [e], |log|)
    ensures GoodLog(o, review, log + [e])
  {
    hide EntryOk;
    forall i: nat | i < |log|
      ensures EntryOk(o, review, log + [e], i)
    {
      EntryKept(o, review, log, e, i);
    }
  }

  // ----- Calls that may fail, and crashes -----

  /** A step after which the process may be gone. */
  datatype Step<+T> = Crashed | Ran(value: T) {
    predicate IsFailure() {
      Crashed?
    }

    function PropagateFailure<U>(): Step<U>
      requires Crashed?
    {
      Crashed
    }

    function Extract(): T
      requires Ran?
    {
      value
    }
  }

  datatype Lookup = LookupFailed | NotFound | Got(comment: Comment)

  datatype ReconcileResult = ReconcileResult(status: Status, commentId: nat, reused: bool)

  /** The intent, with the comment id it was found under (0 when proven absent), or why that is unknown. */
  datatype Located = Stuck(intent: OutputIntent, cause: string) | Known(intent: OutputIntent, reused: bool)

  datatype Posting =
    | PostFailed(intent: OutputIntent, cause: string)
    | Discarded
    | Posted(intent: OutputIntent)

  function NewID(cs: seq<Comment>): (id: nat)
    ensures id > 0 && forall i :: 0 <= i < |cs| ==> cs[i].id < id
  {
    if cs == [] then 1
    else
      var front := NewID(cs[..|cs| - 1]);
      if cs[|cs| - 1].id >= front then cs[|cs| - 1].id + 1 else front
  }

  /** The ID of the next comment: later than every comment there is and every comment on record. */
  function FreshID(w: World): (id: nat)
    ensures id > 0 && forall i :: 0 <= i < |w.comments| ==> w.comments[i].id < id
    ensures w.saved.Some? ==> w.saved.value.commentId < id
  {
    var id := NewID(w.comments);
    if w.saved.Some? && w.saved.value.commentId >= id then w.saved.value.commentId + 1 else id
  }

  function CreateIn(o: Owner, w: World, body: string): World {
    w.(comments := w.comments + [Comment(FreshID(w), Some(User(o.actor.id, o.actor.login)), body)])
  }

  function EditIn(w: World, id: nat, body: string): World {
    w.(comments := EditAll(w.comments, id, body))
  }

  predicate Terminal(s: Status) {
    s == Completed || s == Failed || s == Superseded
  }

  /** The transaction behind both outcome commits: it refuses a missing job, and a completion after the
      generation moved. */
  predicate CommitAccepts(w: World, job: Job) {
    w.job.Some? && !(job.status == Completed && Newer(GenerationOf(w), job))
  }

  function CommitIn(w: World, intent: OutputIntent, job: Job, successor: Option<string>): World {
    var job' := if Terminal(job.status) then job.(networkFetch := false) else job;
    var state := if w.pr.Some? then w.pr.value else PRState(job.generation, "", "", false);
    var reviewed :=
      if job.status == Completed && intent.action == ReviewOutput
      then Some(state.(lastReviewedHead := intent.exactHead)) else w.pr;
    var pr' :=
      if successor.None? then reviewed
      else
        var base := if reviewed.Some? then reviewed.value else PRState(0, "", "", false);
        Some(base.(generation := base.generation + 1, latestHead := successor.value, reservedSuccessor := true));
    w.(saved := Some(intent), job := Some(job'), pr := pr')
  }

  lemma CreatedMine(o: Owner, w: World, body: string)
    requires o.Named() && Contains(body, o.marker) && UniqueIDs(w.comments)
    ensures Mine(o, CreateIn(o, w, body).comments)
         == Mine(o, w.comments) + [Comment(FreshID(w), Some(User(o.actor.id, o.actor.login)), body)]
    ensures UniqueIDs(CreateIn(o, w, body).comments)
  {
    hide Contains, Mine;
    var c := Comment(FreshID(w), Some(User(o.actor.id, o.actor.login)), body);
    assert o.Owns(c);
    MineSnoc(o, w.comments, c);
  }

  lemma MineSnoc(o: Owner, cs: seq<Comment>, c: Comment)
    ensures Mine(o, cs + [c]) == Mine(o, cs) + if o.Owns(c) then [c] else []
  {
    assert (cs + [c])[..|cs|] == cs;
  }

  /** Over a whole run, at most one create takes effect. */
  lemma AtMostOneCreate(o: Owner, review: bool, log: seq<Entry>, i: nat, j: nat)
    requires GoodLog(o, review, log) && i < |log| && j < |log|
    requires log[i].event.Created? && log[j].event.Created?
    ensures i == j
  {
    hide WorldOk, CreateReady, Shows, Mine;
    assert EntryOk(o, review, log, i) && EntryOk(o, review, log, j);
  }

  lemma OneCreate(o: Owner, review: bool, log: seq<Entry>)
    requires GoodLog(o, review, log)
    ensures forall i, j :: 0 <= i < |log| && 0 <= j < |log| && log[i].event.Created? && log[j].event.Created? ==> i == j
  {
    hide GoodLog;
    forall i, j | 0 <= i < |log| && 0 <= j < |log| && log[i].event.Created? && log[j].event.Created?
      ensures i == j
    {
      AtMostOneCreate(o, review, log, i, j);
    }
  }
}
