/** pkg/server/publication.go, ReconcileOutput and PublishStatus, step by step over the world of
    `Publication`. */
module Publisher {
  import opened Text
  import opened OwnedComments
  import opened Publication

  lemma RelySelf(o: Owner, w: World)
    requires UniqueIDs(w.comments)
    ensures Rely(o, w, w)
  {
  }

  lemma RelyTwice(o: Owner, a: World, b: World, c: World)
    requires Rely(o, a, b) && Rely(o, b, c)
    ensures Rely(o, a, c)
  {
  }

  lemma UniqueWhenOk(o: Owner, review: bool, w: World)
    requires WorldOk(o, review, w)
    ensures UniqueIDs(w.comments)
  {
  }

  /** Successive views of the list while it is scanned: others append and edit, and delete nothing. */
  predicate ScanViews(o: Owner, w: World, w': World, views: seq<seq<Comment>>) {
    && |views| == MAX_PAGES && AppendOnly(o, views)
    && views[0] == w.comments && views[MAX_PAGES - 1] == w'.comments
    && Rely(o, w, w')
  }

  class Service {
    const o: Owner
    /** Whether the marker is that of a review output, or of a status comment. */
    const review: bool
    var world: World
    /** In calm weather no call fails, nobody interferes and the process does not crash. */
    var calm: bool
    ghost var log: seq<Entry>
    /** Every intent given so far named no comment, or the one on record. */
    ghost var honest: bool

    ghost predicate Valid()
      reads this
    {
      && o.Named() && WorldOk(o, review, world) && GoodLog(o, review, log)
      && (Mine(o, world.comments) == [] ==> NoCreate(log, |log|))
      && (review ==> Retained(o, log, world, honest))
    }

    /** The service starts before anything of this marker exists. */
    constructor (o: Owner, review: bool, world: World)
      requires (o.actor.id > 0 || o.actor.login != "") && o.marker != ""
      requires UniqueIDs(world.comments) && Mine(o, world.comments) == [] && world.saved.None?
      ensures Valid() && this.o == o && this.review == review && this.world == world && log == [] && honest
    {
      this.o, this.review, this.world, calm, log, honest := o, review, world, false, [], true;
    }

    // ----- The weather -----

    /** Others act. */
    method Turn()
      requires Valid()
      modifies this`world
      ensures Valid() && Rely(o, old(world), world) && (calm ==> world == old(world))
    {
      RelySelf(o, world);
      if !calm {
        var w :| Rely(o, world, w);
        RelyKeeps(o, review, world, w);
        Carry(w);
        world := w;
      }
    }

    /** What was saved is retained by a world with the same record and the same owned comment. */
    lemma Carry(w: World)
      requires review ==> Retained(o, log, world, honest)
      requires w.saved == world.saved && (Anchored(o, world) ==> OwnedUnder(o, w, world.saved.value.commentId))
      ensures review ==> Retained(o, log, w, honest)
    {
      hide Retained, OwnedUnder;
      if review {
        SameRecordRetains(o, world, w, honest);
        RetainedBy(o, log, world, w, honest);
      }
    }

    /** And by a world with a record that keeps what was saved. */
    lemma CarryOver(w: World, i: OutputIntent)
      requires review ==> Retained(o, log, world, honest) && Keeps(world.saved, i) && (honest ==> KeepsID(o, world, i))
      requires w.saved == Some(i) && w.comments == world.comments
      ensures review ==> Retained(o, log, w, honest)
    {
      hide Retained, OwnedUnder, Keeps;
      if review {
        SaveRetains(o, world, w, i, honest);
        RetainedBy(o, log, world, w, honest);
      }
    }

    /** Whether a call takes effect, whether it is reported as a success, and whether the process crashes
        after it. */
    method Weather() returns (applied: bool, ok: bool, crash: bool)
      ensures calm ==> applied && ok && !crash
    {
      if calm {
        applied, ok, crash := true, true, false;
      } else {
        applied, ok, crash := *, *, *;
      }
    }

    /** The state after a call that took effect as `w`. */
    twostate predicate Moved(w: World)
      reads this
    {
      Valid() && calm == old(calm) && Rely(o, w, world) && (calm ==> world == w)
    }

    method Act(ghost event: Event)
      requires Valid() && EntryOk(o, review, log + [Entry(event, world)], |log|)
      modifies this`world, this`log
      ensures Moved(old(world)) && log == old(log) + [Entry(event, old(world))]
    {
      LogGrows(o, review, log, Entry(event, world));
      if review {
        RetainedSnoc(o, log, Entry(event, world), honest);
      }
      log := log + [Entry(event, world)];
      Turn();
    }

    // ----- Reads -----

    /** The actor lookup, or any other call that has no part in the protocol. */
    method ServiceActor() returns (r: Step<bool>)
      requires Valid()
      modifies this`world
      ensures Moved(old(world))
      ensures calm ==> r == Ran(true)
    {
      var _, ok, crash := Weather();
      Turn();
      r := if crash then Crashed else Ran(ok);
    }

    method GetIntent() returns (r: Step<Option<OutputIntent>>)
      requires Valid()
      modifies this`world
      ensures Moved(old(world))
      ensures r.Ran? && r.value.Some? ==> r.value == old(world).saved
      ensures calm ==> r == Ran(old(world).saved)
    {
      var _, ok, crash := Weather();
      var saved := world.saved;
      Turn();
      r := if crash then Crashed else Ran(if ok then saved else None);
    }

    method GetJob() returns (r: Step<Option<Job>>)
      requires Valid()
      modifies this`world
      ensures Moved(old(world))
      ensures r.Ran? && r.value.Some? ==> r.value == old(world).job
      ensures calm ==> r == Ran(old(world).job)
    {
      var _, ok, crash := Weather();
      var job := world.job;
      Turn();
      r := if crash then Crashed else Ran(if ok then job else None);
    }

    method GetPR() returns (r: Step<Option<string>>)
      requires Valid()
      modifies this`world, this`log
      ensures Moved(old(world)) && old(log) <= log
      ensures r.Ran? && r.value.Some? ==> log == old(log) + [Entry(HeadRead(r.value.value), old(world))]
      ensures calm ==> r == Ran(Some(old(world).liveHead))
    {
      var _, ok, crash := Weather();
      var head := world.liveHead;
      Act(HeadRead(head));
      r := if crash then Crashed else Ran(if ok then Some(head) else None);
    }

    /** None when the store cannot be read. */
    method GetGeneration() returns (r: Step<Option<Option<nat>>>)
      requires Valid()
      modifies this`world, this`log
      ensures Moved(old(world)) && old(log) <= log
      ensures r.Ran? && r.value.Some? ==> log == old(log) + [Entry(StateRead(r.value.value), old(world))]
      ensures calm ==> r == Ran(Some(GenerationOf(old(world))))
    {
      var _, ok, crash := Weather();
      var generation := GenerationOf(world);
      Act(StateRead(generation));
      r := if crash then Crashed else Ran(if ok then Some(generation) else None);
    }

    method GetComment(id: nat) returns (r: Step<Lookup>)
      requires Valid()
      modifies this`world
      ensures Moved(old(world))
      ensures r.Ran? && r.value.Got? ==> r.value.comment in old(world).comments && r.value.comment.id == id
      ensures r.Ran? && r.value.NotFound? ==> forall c :: c in old(world).comments ==> c.id != id
      ensures calm ==> r.Ran? && !r.value.LookupFailed?
    {
      var _, ok, crash := Weather();
      var lookup := NotFound;
      for i := 0 to |world.comments|
        invariant lookup.Got? ==> lookup.comment in world.comments && lookup.comment.id == id
        invariant !lookup.LookupFailed?
        invariant lookup.NotFound? ==> forall j :: 0 <= j < i ==> world.comments[j].id != id
      {
        if world.comments[i].id == id {
          lookup := Got(world.comments[i]);
        }
      }
      Turn();
      r := if crash then Crashed else Ran(if ok then lookup else LookupFailed);
    }

    /** The list at the page reads of one scan: others append and edit. */
    method Views() returns (views: seq<seq<Comment>>)
      requires Valid()
      modifies this`world
      ensures Moved(old(world)) && |views| == MAX_PAGES && AppendOnly(o, views)
      ensures views[MAX_PAGES - 1] == world.comments
      ensures calm ==> views == Still(world.comments)
    {
      hide GoodLog, Mine, Owner.Owns, WorldOk, Retained;
      UniqueWhenOk(o, review, world);
      RelySelf(o, world);
      views := Still(world.comments);
      if !calm {
        assert ScanViews(o, world, world, views);
        var w, vs :| ScanViews(o, world, w, vs);
        assert ScanViews(o, world, w, vs);
        RelyKeeps(o, review, world, w);
        Carry(w);
        world, views := w, vs;
      }
    }

    /** The paged scan, while others append and edit. */
    method FindOwned() returns (r: Step<Match>)
      requires Valid()
      modifies this`world, this`log
      ensures Moved(old(world)) && old(log) <= log
      ensures r == Ran(Absent) ==> Mine(o, world.comments) == [] && |log| > 0 && log[|log| - 1].event == Scanned(Absent)
      ensures r.Ran? && r.value.Found? ==> Shows(o, world, r.value.id, r.value.body)
      ensures calm ==> r == Ran(Scan(o, Still(old(world).comments), 1))
    {
      hide GoodLog, Mine, Owner.Owns, Scan, AppendOnly, UniqueIDs, Allows, IntentOk, Retained;
      var _, ok, crash := Weather();
      var views := Views();
      ghost var after := world;
      var m := FindOwnedComment(o, views);
      ScanFindsMine(o, views);
      Act(Scanned(m));
      RelyTwice(o, old(world), after, world);
      r := if crash then Crashed else Ran(if ok then m else Undecided);
    }

    // ----- Writes -----

    /** Saving or updating the intent. For a review output the body never changes, and a superseded body
        once saved stays. */
    method SaveIntent(i: OutputIntent) returns (r: Step<bool>)
      requires Valid() && IntentOk(o, i) && (review ==> Keeps(world.saved, i) && (honest ==> KeepsID(o, world, i)))
      modifies this`world, this`log
      ensures old(log) <= log && Valid()
      ensures Moved(old(world)) || Moved(old(world).(saved := Some(i)))
      ensures r == Ran(true) ==>
        && Moved(old(world).(saved := Some(i)))
        && log == old(log) + [Entry(IntentSaved, old(world).(saved := Some(i)))]
      ensures r == Ran(false) ==> Moved(old(world))
      ensures calm ==> r == Ran(true)
    {
      var _, ok, crash := Weather();
      if ok {
        CarryOver(world.(saved := Some(i)), i);
        world := world.(saved := Some(i));
        Act(IntentSaved);
      } else {
        Turn();
      }
      r := if crash then Crashed else Ran(ok);
    }

    method UpdateJob(job: Job) returns (r: Step<bool>)
      requires Valid()
      modifies this`world, this`log
      ensures old(log) <= log && Valid()
      ensures Moved(old(world)) || (old(world).job.Some? && Moved(old(world).(job := Some(job))))
      ensures r == Ran(true) ==> old(world).job.Some? && Moved(old(world).(job := Some(job)))
      ensures r == Ran(false) ==> Moved(old(world))
      ensures calm ==> r == Ran(old(world).job.Some?)
    {
      var _, ok, crash := Weather();
      if ok && world.job.Some? {
        Carry(world.(job := Some(job)));
        world := world.(job := Some(job));
        Act(JobSaved);
        r := if crash then Crashed else Ran(true);
      } else {
        Turn();
        r := if crash then Crashed else Ran(false);
      }
    }

    /** A create may take effect and still be reported as failed. */
    method CreateComment(body: string) returns (r: Step<Option<nat>>)
      requires Valid() && Mine(o, world.comments) == []
      requires CreateReady(o, review, log, |log|, world, body) && Contains(body, o.marker)
      modifies this`world, this`log
      ensures Valid() && old(log) <= log
      ensures world.saved == old(world).saved && world.job == old(world).job && calm == old(calm)
      ensures Moved(old(world)) || Moved(CreateIn(o, old(world), body))
      ensures review ==> !Anchored(o, world)
      ensures r.Ran? && r.value.Some? ==>
        && r.value.value > 0 && Shows(o, world, r.value.value, body) && Moved(CreateIn(o, old(world), body))
      ensures calm ==> r.Ran? && r.value.Some?
    {
      hide GoodLog, Mine, Owner.Owns, UniqueIDs, Allows, IntentOk, Contains, WithMarker, Before, Retained;
      var applied, ok, crash := Weather();
      if applied {
        var id := FreshID(world);
        ReadyCreate(o, review, log, world, body);
        Carry(CreateIn(o, world, body));
        world := CreateIn(o, world, body);
        Act(Created(id));
        r := if crash then Crashed else Ran(if ok then Some(id) else None);
      } else {
        Turn();
        r := if crash then Crashed else Ran(None);
      }
    }

    method EditComment(id: nat, body: string) returns (r: Step<bool>)
      requires Valid() && Mine(o, world.comments) != [] && Mine(o, world.comments)[0].id == id
      requires EditReady(review, log, |log|, world, body) && Contains(body, o.marker)
      requires review ==> world.saved.value.supersededDigest.Some?
      modifies this`world, this`log
      ensures Valid() && old(log) <= log
      ensures world.saved == old(world).saved && world.job == old(world).job && calm == old(calm)
      ensures Mine(o, world.comments) != [] && Mine(o, world.comments)[0].id == id
      ensures Moved(old(world)) || Moved(EditIn(old(world), id, body))
      ensures r == Ran(true) ==>
        && Shows(o, world, id, body) && Moved(EditIn(old(world), id, body))
        && log == old(log) + [Entry(Edited(id), EditIn(old(world), id, body))]
      ensures calm ==> r == Ran(true)
    {
      hide GoodLog, Mine, Owner.Owns, UniqueIDs, Allows, IntentOk, Contains, WithMarker, Before, Retained;
      var applied, ok, crash := Weather();
      if applied {
        ReadyEdit(o, review, log, world, id, body);
        Carry(EditIn(world, id, body));
        world := EditIn(world, id, body);
        Act(Edited(id));
      } else {
        Turn();
      }
      r := if crash then Crashed else Ran(applied && ok);
    }

    /** CommitPublicationOutcome and CommitSupersededOutcome: intent, job and pull request state in one
        transaction. */
    method Commit(intent: OutputIntent, job: Job, successor: Option<string>) returns (r: Step<bool>)
      requires Valid() && review && IntentOk(o, intent)
      requires Keeps(world.saved, intent) && (honest ==> KeepsID(o, world, intent))
      requires Unsettling(job, successor) || CommitReady(o, log, world, intent, job, successor)
      modifies this`world, this`log
      ensures Valid() && old(log) <= log && calm == old(calm)
      ensures Mine(o, world.comments) == Mine(o, old(world).comments)
      ensures
        || Moved(old(world))
        || (CommitAccepts(old(world), job) && Moved(CommitIn(old(world), intent, job, successor)))
      ensures r == Ran(true) ==> CommitAccepts(old(world), job) && Moved(CommitIn(old(world), intent, job, successor))
      ensures r == Ran(false) ==> Moved(old(world))
      ensures calm ==> r == Ran(CommitAccepts(old(world), job))
    {
      var _, ok, crash := Weather();
      if ok && CommitAccepts(world, job) {
        ReadyCommit(o, log, world, intent, job, successor);
        CarryOver(CommitIn(world, intent, job, successor), intent);
        world := CommitIn(world, intent, job, successor);
        Act(Committed(job.status, old(world).pr));
        r := if crash then Crashed else Ran(true);
      } else {
        Turn();
        r := if crash then Crashed else Ran(false);
      }
    }

    // ----- ReconcileOutput -----

    /** The record the method works on matches what is saved. */
    ghost predicate InHand(intent: OutputIntent, job: Job)
      reads this
    {
      && Valid() && review && IntentOk(o, intent) && Matches(world.saved, intent) && Keeps(world.saved, intent)
      && (honest ==> KeepsID(o, world, intent))
      && world.job == Some(job)
    }

    /** Either both records are as before, or both are uncertain and otherwise those in hand. */
    predicate MarkedOrKept(before: World, intent: OutputIntent, job: Job, cause: string)
      reads this
    {
      || (world.saved == before.saved && world.job == before.job)
      || (world.saved == Some(intent.(status := Uncertain))
          && world.job == Some(job.(status := Uncertain, error := cause, finished := false)))
    }

    /** Best effort: the job becomes uncertain, and body, digest and comment id are kept. */
    method MarkUncertain(intent: OutputIntent, job: Job, cause: string) returns (r: Step<ReconcileResult>)
      requires InHand(intent, job)
      modifies this`world, this`log
      ensures Valid() && old(log) <= log && calm == old(calm)
      ensures Mine(o, world.comments) == Mine(o, old(world).comments)
      ensures MarkedOrKept(old(world), intent, job, cause)
      ensures r.Ran? ==> r.value == ReconcileResult(Uncertain, intent.commentId, false)
      ensures calm ==> r.Ran? && world.saved == Some(intent.(status := Uncertain)) && world.pr == old(world).pr
    {
      hide GoodLog, Mine, Owner.Owns, WorldOk, Contains, Retained;
      var _ :- Commit(intent.(status := Uncertain),
                      job.(status := Uncertain, error := cause, finished := false), None);
      return Ran(ReconcileResult(Uncertain, intent.commentId, false));
    }

    /** Step 2, known id: reused when it is proven owned, else forgotten. */
    method CheckKnown(intent: OutputIntent, job: Job) returns (r: Step<Located>)
      requires InHand(intent, job) && intent.commentId > 0
      modifies this`world
      ensures Moved(old(world))
      ensures r.Ran? ==> InHand(r.value.intent, job)
      ensures r.Ran? ==> r.value.intent == intent.(commentId := r.value.intent.commentId)
      ensures r.Ran? && r.value.Stuck? ==> r.value.cause != REFUSED
      ensures r.Ran? && r.value.Known? ==>
        && r.value.intent == intent.(commentId := if r.value.reused then intent.commentId else 0)
        && r.value.reused == OwnedUnder(o, world, intent.commentId)
      ensures calm ==> r.Ran? && r.value.Known?
    {
      hide GoodLog, Mine, Owner.Owns, Contains, WithMarker, Scan, UniqueIDs, Owner.Wrote, Allows, EntryOk, Retained;
      var lookup :- GetComment(intent.commentId);
      if lookup.LookupFailed? {
        return Ran(Stuck(intent, "owned comment check failed"));
      }
      LookupDecides(o, old(world), intent.commentId, lookup);
      MineAllowed(o, world, intent);
      if lookup.Got? && o.Wrote(lookup.comment) && Contains(lookup.comment.body, o.marker) {
        if !Allows(o, intent, lookup.comment.body) {
          return Ran(Stuck(intent, REFUSED));
        }
        return Ran(Known(intent, true));
      }
      return Ran(Known(intent.(commentId := 0), false));
    }

    /** Step 2, no known id: a complete scan, whose find is saved before it is used. */
    method Search(intent: OutputIntent, job: Job) returns (r: Step<Located>)
      requires InHand(intent, job) && intent.commentId == 0
      modifies this`world, this`log
      ensures Valid() && old(log) <= log && calm == old(calm)
      ensures r.Ran? ==> InHand(r.value.intent, job) && Mine(o, world.comments) == Mine(o, old(world).comments)
      ensures r.Ran? ==> r.value.intent == intent.(commentId := r.value.intent.commentId)
      ensures r.Ran? && r.value.Stuck? ==> r.value.cause != REFUSED
      ensures r.Ran? && r.value.Known? ==> Settled(r.value.intent.commentId)
      ensures r.Ran? && r.value.Known? ==> r.value.reused == (r.value.intent.commentId > 0)
      ensures calm ==>
        && r.Ran? && world == old(world).(saved := world.saved)
        && (r.value.Known? <==> Scan(o, Still(old(world).comments), 1) != Undecided)
    {
      hide GoodLog, Mine, Owner.Owns, Contains, WithMarker, Scan, UniqueIDs, Owner.Wrote, Allows, EntryOk, Retained;
      var m :- FindOwned();
      if m.Undecided? {
        return Ran(Stuck(intent, "uncertain owned comment scan"));
      }
      if m.Absent? {
        return Ran(Known(intent, false));
      }
      MineAllowed(o, world, intent);
      if m.id == 0 {
        return Ran(Stuck(intent, "scan returned invalid comment id"));
      }
      if !Allows(o, intent, m.body) {
        return Ran(Stuck(intent, REFUSED));
      }
      var i := intent.(commentId := m.id);
      var saved :- SaveIntent(i);
      if !saved {
        return Ran(Stuck(i, "save recovered comment id"));
      }
      return Ran(Known(i, true));
    }

    /** Steps 1 and 2: find the owned comment, by its known id or by a complete scan. */
    method Locate(intent: OutputIntent, job: Job) returns (r: Step<Located>)
      requires InHand(intent, job)
      modifies this`world, this`log
      ensures Valid() && old(log) <= log && calm == old(calm)
      ensures r.Ran? ==> InHand(r.value.intent, job) && Mine(o, world.comments) == Mine(o, old(world).comments)
      ensures r.Ran? ==> r.value.intent == intent.(commentId := r.value.intent.commentId)
      ensures r.Ran? && r.value.Stuck? ==> r.value.cause != REFUSED
      ensures r.Ran? && r.value.Known? ==> Settled(r.value.intent.commentId)
      ensures r.Ran? && r.value.Known? ==> r.value.reused == (r.value.intent.commentId > 0)
      ensures calm ==>
        && r.Ran? && world == old(world).(saved := world.saved)
        && (r.value.Known? <==> Locatable(o, old(world), intent.commentId))
    {
      hide GoodLog, Mine, Owner.Owns, Contains, WithMarker, Scan, UniqueIDs, EntryOk, Allows, IntentOk, Retained;
      var actorKnown :- ServiceActor();
      if !actorKnown {
        return Ran(Stuck(intent, "service actor lookup failed"));
      }
      if intent.commentId == 0 {
        r := Search(intent, job);
        return;
      }
      var known :- CheckKnown(intent, job);
      if known.Stuck? || known.reused {
        return Ran(known);
      }
      r := Search(known.intent, job);
    }

    /** The live head, if it is a commit id, and then the stored generation. */
    method ReadLive() returns (r: Step<Option<Reading>>)
      requires Valid()
      modifies this`world, this`log
      ensures Moved(old(world)) && old(log) <= log
      ensures r.Ran? && r.value.Some? ==>
        && |log| == |old(log)| + 2
        && log[|log| - 2].event == HeadRead(r.value.value.head)
        && log[|log| - 1].event == StateRead(r.value.value.generation)
        && log[|log| - 2].world == old(world)
      ensures calm ==> r == Ran(if ValidOID(old(world).liveHead)
        then Some(Reading(old(world).liveHead, GenerationOf(old(world)))) else None)
    {
      hide GoodLog, Mine, Owner.Owns, EntryOk, ValidOID, WorldOk, UniqueIDs, Retained;
      var head :- GetPR();
      if head.None? || !ValidOID(head.value) {
        return Ran(None);
      }
      var generation :- GetGeneration();
      r := Ran(if generation.Some? then Some(Reading(head.value, generation.value)) else None);
    }

    /** Nothing was posted: the outdated report is dropped, and an automatic job whose head moved leaves a
        successor. */
    method Discard(intent: OutputIntent, job: Job, live: Reading) returns (r: Step<bool>)
      requires InHand(intent, job) && intent.commentId == 0 && Mine(o, world.comments) == []
      requires live.head != intent.exactHead || Newer(live.generation, job)
      requires Before(log, |log|, [Scanned(Absent), HeadRead(live.head), StateRead(live.generation)])
      modifies this`world, this`log
      ensures Valid() && old(log) <= log && calm == old(calm)
      ensures r == Ran(true) ==> Finished(Superseded, 0)
      ensures r == Ran(false) ==> Moved(old(world))
      ensures calm ==> r == Ran(true)
      ensures calm ==>
        Succeeds(job.automatic, false, live.head != intent.exactHead, live.head, old(world).pr, world.pr)
    {
      hide GoodLog, Mine, Owner.Owns, Contains, UniqueIDs, EntryOk, Allows, Before, Retained;
      var successor := if live.head != intent.exactHead && job.automatic then Some(live.head) else None;
      var i, j := intent.(status := Superseded), job.(status := Superseded, finished := true);
      assert SupersedeReady(log, |log|, i.exactHead, 0, j, world.pr, CommitIn(world, i, j, successor).pr);
      r := Commit(i, j, successor);
    }

    /** Creates the comment, then saves its id. */
    method CreateReport(intent: OutputIntent, job: Job) returns (r: Step<Posting>)
      requires InHand(intent, job) && intent.commentId == 0 && Mine(o, world.comments) == []
      requires CreateReady(o, true, log, |log|, world, WithMarker(o.marker, intent.body))
      modifies this`world, this`log
      ensures Valid() && old(log) <= log && calm == old(calm)
      ensures r.Ran? ==>
        && !r.value.Discarded? && InHand(r.value.intent, job)
        && r.value.intent.exactHead == intent.exactHead && r.value.intent.action == intent.action
      ensures r.Ran? && r.value.Posted? ==>
        r.value.intent.commentId > 0 && Shows(o, world, r.value.intent.commentId, WithMarker(o.marker, intent.body))
      ensures calm ==>
        && r.Ran? && r.value.Posted? && world.liveHead == old(world).liveHead && world.pr == old(world).pr
    {
      hide GoodLog, Mine, Owner.Owns, Contains, WithMarker, UniqueIDs, EntryOk, Allows, CreateReady, Retained;
      var id :- CreateComment(WithMarker(o.marker, intent.body));
      if id.None? {
        return Ran(PostFailed(intent, "create failed"));
      }
      var i := intent.(commentId := id.value, status := InProgress);
      var saved :- SaveIntent(i);
      return Ran(if saved then Posted(i) else PostFailed(intent, "save created comment id"));
    }

    /** Step 3, nothing posted: create the comment if head and generation are still right, else discard. */
    method Post(intent: OutputIntent, job: Job) returns (r: Step<Posting>)
      requires InHand(intent, job) && intent.commentId == 0 && Settled(0)
      modifies this`world, this`log
      ensures Valid() && old(log) <= log && calm == old(calm)
      ensures r.Ran? && !r.value.Discarded? ==>
        && InHand(r.value.intent, job)
        && r.value.intent.exactHead == intent.exactHead && r.value.intent.action == intent.action
      ensures r.Ran? && r.value.Posted? ==>
        r.value.intent.commentId > 0 && Shows(o, world, r.value.intent.commentId, WithMarker(o.marker, intent.body))
      ensures r == Ran(Discarded) ==> Finished(Superseded, 0)
      ensures calm ==> r.Ran? && Predicted(old(world), intent, job, r.value)
      ensures calm && r.value.Posted? ==> world.liveHead == old(world).liveHead && world.pr == old(world).pr
      ensures calm && r.value.PostFailed? ==> world.pr == old(world).pr
      ensures calm && r.value.Discarded? ==>
        Succeeds(job.automatic, false, old(world).liveHead != intent.exactHead, old(world).liveHead,
                 old(world).pr, world.pr)
    {
      hide GoodLog, Mine, Owner.Owns, Contains, WithMarker, UniqueIDs, EntryOk, Allows, ValidOID, CreateReady, Retained;
      var live :- ReadLive();
      if live.None? {
        return Ran(PostFailed(intent, "pre-write verification failed"));
      }
      var generation := live.value.generation;
      assert Before(log, |log|, [Scanned(Absent), HeadRead(live.value.head), StateRead(generation)]);
      if live.value.head != intent.exactHead || Newer(generation, job) {
        var committed :- Discard(intent, job, live.value);
        return Ran(if committed then Discarded else PostFailed(intent, "commit superseded outcome"));
      }
      ReadyToCreate(o, log, world, intent, job, generation);
      r := CreateReport(intent, job);
    }

    /** Makes the superseded text durable, then writes it over the comment. */
    method WriteSuperseded(i: OutputIntent, job: Job) returns (r: Step<bool>)
      requires InHand(i, job) && i.supersededBody != "" && OwnedUnder(o, world, i.commentId)
      modifies this`world, this`log
      ensures Valid() && old(log) <= log && calm == old(calm)
      ensures r.Ran? ==> InHand(i, job)
      ensures r == Ran(true) ==>
        && Shows(o, world, i.commentId, i.supersededBody)
        && |log| == |old(log)| + 2 && log[|old(log)|].event == IntentSaved
        && log[|old(log)| + 1].event == Edited(i.commentId)
      ensures calm ==> r == Ran(true) && world.pr == old(world).pr
    {
      hide GoodLog, Mine, Owner.Owns, Contains, UniqueIDs, EntryOk, Allows, WithMarker, Retained;
      var saved :- SaveIntent(i);
      if !saved {
        return Ran(false);
      }
      assert Before(log, |log|, [IntentSaved]);
      r := EditComment(i.commentId, i.supersededBody);
    }

    /** Step 4, head or generation moved: the superseded text is written, then the outcome is committed. */
    method Supersede(intent: OutputIntent, job: Job, live: Reading) returns (r: Step<bool>)
      requires InHand(intent, job) && intent.commentId > 0 && OwnedUnder(o, world, intent.commentId)
      requires live.head != intent.exactHead || Newer(live.generation, job)
      requires Before(log, |log|, [HeadRead(live.head), StateRead(live.generation)])
      modifies this`world, this`log
      ensures Valid() && old(log) <= log && calm == old(calm)
      ensures r == Ran(true) ==>
        && Finished(Superseded, intent.commentId)
        && Shows(o, world, intent.commentId, world.saved.value.supersededBody)
      ensures r == Ran(false) ==> InHand(SupersedingIntent(o, intent), job)
      ensures calm ==> r == Ran(true)
      ensures calm ==>
        Succeeds(job.automatic, true, live.head != intent.exactHead, live.head, old(world).pr, world.pr)
    {
      hide GoodLog, Mine, Owner.Owns, Contains, UniqueIDs, EntryOk, Allows, WithMarker, IntentOk, Retained;
      SupersededTextOk(o, intent);
      var i := SupersedingIntent(o, intent);
      var written :- WriteSuperseded(i, job);
      if !written {
        return Ran(false);
      }
      var successor := if job.automatic then Some(live.head) else None;
      var i', job' := i.(status := Superseded), job.(status := Superseded, finished := true);
      assert Before(log, |log|, [HeadRead(live.head), StateRead(live.generation), IntentSaved, Edited(i.commentId)]);
      assert SupersedeReady(log, |log|, i'.exactHead, i'.commentId, job', world.pr,
        CommitIn(world, i', job', successor).pr);
      SameSupersededOk(o, i, i');
      r := Commit(i', job', successor);
    }

    /** Step 5, head and generation are still right: the terminal commit. */
    method Complete(intent: OutputIntent, job: Job, live: Reading) returns (r: Step<bool>)
      requires InHand(intent, job) && intent.commentId > 0 && OwnedUnder(o, world, intent.commentId)
      requires live.head == intent.exactHead && !Newer(live.generation, job)
      requires Before(log, |log|, [HeadRead(live.head), StateRead(live.generation)])
      requires Mine(o, log[|log| - 2].world.comments) != []
        && Mine(o, log[|log| - 2].world.comments)[0].id == intent.commentId
      modifies this`world, this`log
      ensures Valid() && old(log) <= log && calm == old(calm)
      ensures Mine(o, world.comments) == Mine(o, old(world).comments)
      ensures r == Ran(true) ==> Finished(Completed, intent.commentId)
      ensures r == Ran(false) ==> InHand(intent, job)
      ensures calm ==> r == Ran(!Newer(GenerationOf(old(world)), job))
      ensures calm && r == Ran(true) ==> Noted(intent, job, old(world).pr, world.pr)
      ensures calm && r == Ran(false) ==> world.pr == old(world).pr
    {
      hide GoodLog, Mine, Owner.Owns, Contains, UniqueIDs, EntryOk, Allows, WithMarker, Retained;
      var i, job' := intent.(status := Completed),
        job.(status := Completed, networkFetch := false, error := "", finished := true);
      assert !Newer(live.generation, job') && Before(log, |log|, [HeadRead(i.exactHead), StateRead(live.generation)]);
      assert CompleteReady(o, log, |log|, i.exactHead, i.commentId, job');
      SameSupersededOk(o, intent, i);
      r := Commit(i, job', None);
    }

    /** Steps 4 and 5: final verification, then the terminal commit. */
    method Settle(intent: OutputIntent, job: Job, reused: bool) returns (r: Step<ReconcileResult>)
      requires InHand(intent, job) && intent.commentId > 0 && OwnedUnder(o, world, intent.commentId)
      modifies this`world, this`log
      ensures Valid() && old(log) <= log && calm == old(calm)
      ensures r.Ran? ==> r.value.status in {Uncertain, Completed, Superseded}
      ensures r.Ran? && r.value.status == Completed ==>
        && Finished(Completed, r.value.commentId) && Mine(o, world.comments) == Mine(o, old(world).comments)
        && r.value.commentId == intent.commentId
      ensures r.Ran? && r.value.status == Superseded ==>
        && Finished(Superseded, r.value.commentId) && r.value.commentId == intent.commentId
        && Shows(o, world, r.value.commentId, world.saved.value.supersededBody)
      ensures calm ==> r.Ran? && r.value.status == Verdict(old(world), intent, job)
      ensures calm ==> RecordLeft(intent, job, old(world), world, r.value)
    {
      hide GoodLog, Mine, Owner.Owns, Contains, UniqueIDs, EntryOk, Allows, WithMarker, ValidOID, Retained;
      var live :- ReadLive();
      if live.None? {
        r := MarkUncertain(intent, job, "final verification failed");
        return;
      }
      assert Before(log, |log|, [HeadRead(live.value.head), StateRead(live.value.generation)]);
      if live.value.head != intent.exactHead || Newer(live.value.generation, job) {
        var superseded :- Supersede(intent, job, live.value);
        if !superseded {
          r := MarkUncertain(SupersedingIntent(o, intent), job, "superseding failed");
          return;
        }
        return Ran(ReconcileResult(Superseded, intent.commentId, reused));
      }
      var completed :- Complete(intent, job, live.value);
      if !completed {
        r := MarkUncertain(intent, job, "terminal outcome commit failed");
        return;
      }
      return Ran(ReconcileResult(Completed, intent.commentId, reused));
    }

    /** Steps 1 to 5, on the record in hand. */
    method Publish(intent: OutputIntent, job: Job) returns (r: Step<ReconcileResult>)
      requires InHand(intent, job)
      modifies this`world, this`log
      ensures Valid() && old(log) <= log && calm == old(calm)
      ensures r.Ran? ==> Outcome(r.value, BodyAfter(o, old(world), intent))
      ensures calm ==> r.Ran?
      ensures calm && Locatable(o, old(world), intent.commentId) ==> r.value.status == Verdict(old(world), intent, job)
      ensures calm && !Locatable(o, old(world), intent.commentId) ==> r.value.status == Uncertain
      ensures calm ==> RecordLeft(intent, job, old(world), world, r.value)
    {
      hide GoodLog, Mine, Owner.Owns, Contains, UniqueIDs, EntryOk, Allows, WithMarker, ValidOID, Scan, IntentOk,
        Keeps, Retained;
      var located :- Locate(intent, job);
      if located.Stuck? {
        r := MarkUncertain(located.intent, job, located.cause);
        return;
      }
      if located.intent.commentId > 0 {
        r := Settle(located.intent, job, true);
        return;
      }
      var posting :- Post(located.intent, job);
      if posting.Discarded? {
        return Ran(ReconcileResult(Superseded, 0, false));
      }
      if posting.PostFailed? {
        r := MarkUncertain(posting.intent, job, posting.cause);
        return;
      }
      r := Settle(posting.intent, job, false);
    }

    /** Reconciles a saved output intent, from wherever an earlier attempt was cut off. */
    method ReconcileOutput(given: OutputIntent) returns (r: Step<ReconcileResult>)
      requires Valid() && review
      modifies this`world, this`log, this`honest
      ensures Valid() && old(log) <= log && calm == old(calm)
      ensures honest == (old(honest) && Honest(old(world), given))
      ensures r.Ran? ==> Outcome(r.value, BodyAfter(o, old(world), given))
      ensures calm ==> r.Ran?
      ensures calm && Recoverable(o, old(world), given) ==>
        r.value.status == Verdict(old(world), given, old(world).job.value)
      ensures calm && !Recoverable(o, old(world), given) ==> r.value.status == Uncertain
      ensures calm && old(world).job.None? ==> world.pr == old(world).pr
      ensures calm && old(world).job.Some? ==> RecordLeft(given, old(world).job.value, old(world), world, r.value)
    {
      hide GoodLog, Mine, Owner.Owns, Contains, UniqueIDs, EntryOk, Allows, WithMarker, ValidOID, Scan, IntentOk,
        Retained;
      if honest && !Honest(world, given) {
        Doubt();
      }
      var saved :- GetIntent();
      if saved.None? || !Matches(saved, given) {
        return Ran(ReconcileResult(Uncertain, 0, false));
      }
      var intent := given.(
        commentId := if given.commentId == 0 then saved.value.commentId else given.commentId,
        supersededBody := saved.value.supersededBody,
        supersededDigest := saved.value.supersededDigest);
      SameSupersededOk(o, saved.value, intent);
      var job :- GetJob();
      if job.None? {
        return Ran(ReconcileResult(Uncertain, 0, false));
      }
      r := Publish(intent, job.value);
    }

    /** From here on nothing is said of comment ids. */
    ghost method Doubt()
      requires Valid()
      modifies this`honest
      ensures Valid() && !honest
    {
      hide Anchored;
      honest := false;
    }

    // ----- PublishStatus -----

    /** The comment id on record: with the caller, in the job row, or in the intent. */
    method RecordedID(job: Job) returns (r: Step<nat>)
      requires Valid()
      modifies this`world
      ensures Moved(old(world))
      ensures calm ==> r == Ran(StatusID(old(world), job))
    {
      hide GoodLog, WorldOk, Mine, Retained;
      UniqueWhenOk(o, review, world);
      RelySelf(o, world);
      var id := job.statusCommentId;
      if id == 0 {
        var row :- GetJob();
        if row.Some? && row.value.statusCommentId > 0 {
          id := row.value.statusCommentId;
        }
      }
      if id == 0 {
        var intent :- GetIntent();
        if intent.Some? && intent.value.commentId > 0 {
          id := intent.value.commentId;
        }
      }
      return Ran(id);
    }

    /** Patches the comment id into the freshest job row, or into the caller's when the read of it fails.
        `wasRead` is whether the read succeeded. */
    method SaveStatusCommentID(job: Job, id: nat) returns (r: Step<bool>, ghost wasRead: bool)
      requires Valid()
      modifies this`world, this`log
      ensures Valid() && old(log) <= log && calm == old(calm)
      ensures r.Ran? ==> world.saved == old(world).saved && Mine(o, world.comments) == Mine(o, old(world).comments)
      ensures wasRead ==> old(world).job.Some?
      ensures r == Ran(true) ==>
        && old(world).job.Some? && world.job == Some(PatchedRow(old(world).job.value, job, wasRead, id))
      ensures r == Ran(false) ==> world.job == old(world).job
      ensures r.Crashed? && old(world).job.Some? ==>
        world.job in {old(world).job, Some(PatchedRow(old(world).job.value, job, wasRead, id))}
      ensures calm ==> r == Ran(old(world).job.Some?) && wasRead == old(world).job.Some?
      ensures calm ==> world == old(world).(job := world.job)
    {
      hide GoodLog, WorldOk, Mine, Retained;
      var row := GetJob();
      wasRead := row.Ran? && row.value.Some?;
      if row.Crashed? {
        return Crashed, wasRead;
      }
      var target := if row.value.Some? then row.value.value else job;
      r := UpdateJob(target.(statusCommentId := id));
    }

    method MarkStatusUncertain(intent: OutputIntent) returns (r: Step<Option<nat>>)
      requires Valid() && !review && IntentOk(o, intent)
      modifies this`world, this`log
      ensures Valid() && old(log) <= log && calm == old(calm) && (r.Ran? ==> r.value.None?)
      ensures calm ==> r.Ran?
    {
      var _ :- SaveIntent(intent.(status := Uncertain));
      return Ran(None);
    }

    method FinishStatus(intent: OutputIntent, id: nat) returns (r: Step<Option<nat>>)
      requires Valid() && !review && IntentOk(o, intent) && Shows(o, world, id, intent.body)
      modifies this`world, this`log
      ensures Valid() && old(log) <= log && calm == old(calm)
      ensures r.Ran? && r.value.Some? ==> Stated(r.value.value, intent.body)
      ensures r.Ran? && r.value.Some? ==> r.value.value == id
      ensures calm ==> r.Ran? && r.value.Some?
    {
      hide GoodLog, Mine, Contains, Retained;
      var saved :- SaveIntent(intent.(commentId := id, status := Completed));
      return Ran(if saved then Some(id) else None);
    }

    /** The status comment shows this body, and the intent records it as completed. */
    ghost predicate Stated(id: nat, body: string)
      reads this
    {
      && id > 0 && Shows(o, world, id, body)
      && world.saved.Some? && world.saved.value.status == Completed
      && world.saved.value.commentId == id && world.saved.value.body == body
    }

    /** Edits a comment already proven owned. */
    method EditOwned(intent: OutputIntent, job: Job, known: nat, id: nat) returns (r: Step<Option<nat>>)
      requires Valid() && !review && IntentOk(o, intent) && OwnedUnder(o, world, id) && Contains(intent.body, o.marker)
      modifies this`world, this`log
      ensures Valid() && old(log) <= log && calm == old(calm)
      ensures r.Ran? && r.value.Some? ==> Stated(r.value.value, intent.body)
      ensures calm && (old(world).job.Some? || known == id) ==> r.Ran? && r.value.Some?
    {
      hide GoodLog, Mine, Contains, UniqueIDs, IntentOk, Owner.Owns, Retained;
      SameSupersededOk(o, intent, intent.(commentId := id));
      var i := intent.(commentId := id);
      var saved :- SaveIntent(i);
      if !saved {
        return Ran(None);
      }
      assert Before(log, |log|, [IntentSaved]);
      var edited :- EditComment(id, i.body);
      if !edited {
        r := MarkStatusUncertain(i);
        return;
      }
      if known != id {
        var patched, _ := SaveStatusCommentID(job, id);
        if patched != Ran(true) {
          return if patched.Crashed? then Crashed else Ran(None);
        }
      }
      r := FinishStatus(i, id);
    }

    /** Confirmed absent: the intent is committed, then the comment is created. */
    method CreateStatus(intent: OutputIntent, job: Job) returns (r: Step<Option<nat>>)
      requires Valid() && !review && IntentOk(o, intent) && Contains(intent.body, o.marker) && Settled(0)
      modifies this`world, this`log
      ensures Valid() && old(log) <= log && calm == old(calm)
      ensures r.Ran? && r.value.Some? ==> Stated(r.value.value, intent.body)
      ensures calm && old(world).job.Some? ==> r.Ran? && r.value.Some?
    {
      hide GoodLog, Mine, Contains, UniqueIDs, IntentOk, Owner.Owns, Retained;
      var saved :- SaveIntent(intent);
      if !saved {
        return Ran(None);
      }
      assert Before(log, |log|, [Scanned(Absent), IntentSaved]);
      var id :- CreateComment(intent.body);
      if id.None? {
        r := MarkStatusUncertain(intent);
        return;
      }
      SameSupersededOk(o, intent, intent.(commentId := id.value, status := InProgress));
      var i := intent.(commentId := id.value, status := InProgress);
      var recorded :- SaveIntent(i);
      if !recorded {
        return Ran(None);
      }
      var patched, _ := SaveStatusCommentID(job, id.value);
      if patched != Ran(true) {
        return if patched.Crashed? then Crashed else Ran(None);
      }
      r := FinishStatus(i, id.value);
    }

    /** Updates or creates the status comment; None is an error return. */
    method PublishStatus(job: Job, text: string) returns (r: Step<Option<nat>>)
      requires Valid() && !review
      modifies this`world, this`log
      ensures Valid() && old(log) <= log && calm == old(calm)
      ensures r.Ran? && r.value.Some? ==> Stated(r.value.value, WithMarker(o.marker, text))
      ensures calm && old(world).job.Some? ==>
        r.Ran? && (r.value.Some? <==> Locatable(o, old(world), StatusID(old(world), job)))
    {
      hide GoodLog, Mine, Contains, UniqueIDs, Owner.Owns, Owner.Wrote, EntryOk, Scan, Allows, Retained;
      var known :- RecordedID(job);
      var actorKnown :- ServiceActor();
      if !actorKnown {
        return Ran(None);
      }
      var body := WithMarker(o.marker, text);
      var intent := OutputIntent(job.id, StatusNote, job.headSHA, body, 0, "", None, Pending);
      if known > 0 {
        ghost var before := world;
        var lookup :- GetComment(known);
        if lookup.LookupFailed? {
          return Ran(None);
        }
        LookupDecides(o, before, known, lookup);
        if lookup.Got? && o.Wrote(lookup.comment) && Contains(lookup.comment.body, o.marker) {
          r := EditOwned(intent, job, known, known);
          return;
        }
      }
      r := ScanForStatus(intent, job, known);
    }

    /** No known owned comment: a complete scan decides between edit and create. */
    method ScanForStatus(intent: OutputIntent, job: Job, known: nat) returns (r: Step<Option<nat>>)
      requires Valid() && !review && IntentOk(o, intent) && Contains(intent.body, o.marker)
      modifies this`world, this`log
      ensures Valid() && old(log) <= log && calm == old(calm)
      ensures r.Ran? && r.value.Some? ==> Stated(r.value.value, intent.body)
      ensures calm && old(world).job.Some? ==>
        r.Ran? && (r.value.Some? <==> Scan(o, Still(old(world).comments), 1) != Undecided)
    {
      hide GoodLog, Mine, Contains, UniqueIDs, Owner.Owns, Owner.Wrote, EntryOk, Scan, Allows, IntentOk, Retained;
      var m :- FindOwned();
      match m
      case Undecided => return Ran(None);
      case Found(id, _) =>
        if id == 0 {
          return Ran(None);
        }
        r := EditOwned(intent, job, known, id);
      case Absent =>
        r := CreateStatus(intent, job);
    }

    // ----- Runs -----

    /** Any run of a review output: intents are saved, reconciliations start, fail, crash and start again,
        in any weather. At most one comment is ever created. */
    method Live(orders: seq<Order>) returns (results: seq<Step<ReconcileResult>>)
      requires Valid() && review
      modifies this
      ensures Valid() && old(log) <= log
      ensures forall i, j :: 0 <= i < |log| && 0 <= j < |log| && log[i].event.Created? && log[j].event.Created? ==>
        i == j
      ensures Retained(o, log, world, honest)
      ensures
        old(honest) && (forall k :: 0 <= k < |orders| && orders[k].Reconcile? ==> orders[k].given.commentId == 0) ==>
        honest
    {
      results := [];
      for k := 0 to |orders|
        invariant Valid() && old(log) <= log
        invariant
          old(honest) && (forall j :: 0 <= j < k && orders[j].Reconcile? ==> orders[j].given.commentId == 0) ==> honest
      {
        hide GoodLog, WorldOk, Mine, IntentOk, Retained;
        match orders[k]
        case Forecast(calmNow) =>
          calm := calmNow;
        case Save(jobId, head, body) =>
          if world.saved.None? {
            var first := OutputIntent(jobId, ReviewOutput, head, body, 0, "", None, Pending);
            FreshOk(o, first);
            var _ := SaveIntent(first);
          }
        case Reconcile(given) =>
          var r := ReconcileOutput(given);
          results := results + [r];
      }
      OneCreate(o, review, log);
    }

    /** Any run of status comments of the marker: at most one is ever created, whatever the weather. */
    method LiveStatus(orders: seq<StatusOrder>)
      requires Valid() && !review
      modifies this
      ensures Valid() && old(log) <= log
      ensures forall i, j :: 0 <= i < |log| && 0 <= j < |log| && log[i].event.Created? && log[j].event.Created? ==>
        i == j
    {
      for k := 0 to |orders|
        invariant Valid() && old(log) <= log
      {
        hide GoodLog, WorldOk, Mine, Retained;
        match orders[k]
        case Season(calmNow) =>
          calm := calmNow;
        case State(job, text) =>
          var _ := PublishStatus(job, text);
      }
      OneCreate(o, review, log);
    }

    /** After any run, one status published in calm weather is shown by the one owned comment, exactly when
        the comment can be located. */
    method StateAfter(orders: seq<StatusOrder>, job: Job, text: string) returns (before: World, r: Step<Option<nat>>)
      requires Valid() && !review
      modifies this
      ensures Valid()
      ensures before.job.Some? ==> r.Ran? && (r.value.Some? <==> Locatable(o, before, StatusID(before, job)))
      ensures r.Ran? && r.value.Some? ==> Stated(r.value.value, WithMarker(o.marker, text))
    {
      hide GoodLog, WorldOk, Mine, Scan, Retained;
      LiveStatus(orders);
      calm := true;
      before := world;
      r := PublishStatus(job, text);
    }

    /** After any run, one reconciliation of the saved intent in calm weather settles the output, exactly
        when the live head is a commit id and the comment can be located. */
    method RecoverAfter(orders: seq<Order>) returns (before: World, r: Step<ReconcileResult>)
      requires Valid() && review
      modifies this
      ensures Valid() && r.Ran?
      ensures before.saved.Some? && before.job.Some? ==>
        (r.value.status != Uncertain <==>
          ValidOID(before.liveHead) && Locatable(o, before, before.saved.value.commentId))
      ensures r.value.status == Completed ==>
        before.saved.Some? && before.job.Some? && !Outdated(before, before.saved.value, before.job.value)
    {
      hide GoodLog, WorldOk, Mine, IntentOk, Scan, ValidOID, Retained;
      var _ := Live(orders);
      calm := true;
      before := world;
      if world.saved.None? {
        return before, Ran(ReconcileResult(Uncertain, 0, false));
      }
      r := ReconcileOutput(world.saved.value);
    }

    /** What a result promises about the store and the comment. */
    ghost predicate Outcome(r: ReconcileResult, body: string)
      reads this
    {
      && r.status in {Uncertain, Completed, Superseded}
      && (r.status != Uncertain ==> Finished(r.status, r.commentId))
      && (r.status == Completed ==> Shows(o, world, r.commentId, body))
      && (r.status == Superseded && r.commentId > 0 ==> Shows(o, world, r.commentId, world.saved.value.supersededBody))
    }

    /** The terminal commit is in the store. */
    ghost predicate Finished(status: Status, id: nat)
      reads this
    {
      && world.saved.Some? && world.saved.value.status == status && world.saved.value.commentId == id
      && world.job.Some? && Ended(world.job.value, status)
      && (if id == 0 then Mine(o, world.comments) == [] else OwnedUnder(o, world, id))
    }

    /** The comment is there under this id, or a scan just proved that there is none. */
    ghost predicate Settled(id: nat)
      reads this
    {
      if id > 0 then OwnedUnder(o, world, id)
      else Mine(o, world.comments) == [] && |log| > 0 && log[|log| - 1].event == Scanned(Absent)
    }
  }

  const REFUSED := "owned comment body does not match saved intent; refusing to adopt"

  /** The intent, made ready for superseding. */
  function SupersedingIntent(o: Owner, i: OutputIntent): OutputIntent {
    var named :=
      if i.supersededBody == "" then
        var text := WithMarker(o.marker, i.body) + NOTE;
        i.(supersededBody := text, supersededDigest := Some(DigestOf(text)))
      else i;
    named.(status := Superseding)
  }

  lemma SupersededTextOk(o: Owner, i: OutputIntent)
    requires IntentOk(o, i)
    ensures IntentOk(o, SupersedingIntent(o, i))
    ensures SupersedingIntent(o, i).supersededBody != ""
  {
    hide Contains, WithMarker;
    ContainsLonger(WithMarker(o.marker, i.body), o.marker, NOTE);
  }

  lemma SameSupersededOk(o: Owner, a: OutputIntent, b: OutputIntent)
    requires IntentOk(o, a) && b.supersededBody == a.supersededBody && b.supersededDigest == a.supersededDigest
    ensures IntentOk(o, b)
  {
    hide Contains;
  }

  /** The intent given names no comment, or the one on record. */
  predicate Honest(w: World, given: OutputIntent) {
    given.commentId == 0 || (w.saved.Some? && given.commentId == w.saved.value.commentId)
  }

  /** The verdict a reconciliation comes to when nothing stands in its way. */
  function Verdict(w: World, intent: OutputIntent, job: Job): Status {
    if !ValidOID(w.liveHead) then Uncertain
    else if Outdated(w, intent, job) then Superseded else Completed
  }

  /** The head of a completed review is noted; completing anything else leaves the record alone. */
  predicate Noted(intent: OutputIntent, job: Job, before: Option<PRState>, after: Option<PRState>) {
    if intent.action == ReviewOutput then Reviewed(intent.exactHead, job.generation, before, after)
    else after == before
  }

  /** What a reconciliation without interference does to the pull request's record. */
  predicate RecordLeft(intent: OutputIntent, job: Job, before: World, after: World, r: ReconcileResult) {
    match r.status
    case Completed => Noted(intent, job, before.pr, after.pr)
    case Superseded =>
      Succeeds(job.automatic, r.commentId > 0, before.liveHead != intent.exactHead, before.liveHead, before.pr,
        after.pr)
    case _ => after.pr == before.pr
  }

  /** The verdict in plain fields. */
  lemma VerdictIs(w: World, intent: OutputIntent, job: Job)
    ensures Verdict(w, intent, job) == Completed <==>
      && ValidOID(w.liveHead) && w.liveHead == intent.exactHead
      && (w.pr.Some? ==> w.pr.value.generation <= job.generation)
    ensures Verdict(w, intent, job) == Superseded <==>
      && ValidOID(w.liveHead)
      && (w.liveHead != intent.exactHead || (w.pr.Some? && w.pr.value.generation > job.generation))
    ensures Verdict(w, intent, job) == Uncertain <==> !ValidOID(w.liveHead)
  {
    hide ValidOID;
  }

  /** The saved intent is the one given, its job exists, and its comment can be located. */
  ghost predicate Recoverable(o: Owner, w: World, given: OutputIntent) {
    && Matches(w.saved, given) && w.job.Some?
    && Locatable(o, w, if given.commentId == 0 then w.saved.value.commentId else given.commentId)
  }

  /** A completed publication shows the comment that was there, or else the saved body. */
  function BodyAfter(o: Owner, w: World, given: OutputIntent): string {
    var mine := Mine(o, w.comments);
    if mine != [] then mine[0].body else WithMarker(o.marker, given.body)
  }

  /** The job row that is saved with a comment id: the one in the store if it could be read, else the one
      the caller has. */
  function PatchedRow(stored: Job, given: Job, wasRead: bool, id: nat): Job {
    (if wasRead then stored else given).(statusCommentId := id)
  }

  /** Nothing but the comment id changes exactly when the read succeeded or the caller's copy is current. */
  lemma OnlyIDPatchedIff(stored: Job, given: Job, wasRead: bool, id: nat)
    ensures PatchedRow(stored, given, wasRead, id) == stored.(statusCommentId := id)
        <==> wasRead || given.(statusCommentId := stored.statusCommentId) == stored
  {
    assert stored.(statusCommentId := id).(statusCommentId := stored.statusCommentId) == stored;
    assert given.(statusCommentId := id).(statusCommentId := stored.statusCommentId)
        == given.(statusCommentId := stored.statusCommentId);
  }

  /** A worker claims a queued job while its status is published from a copy read before: after a failed read
      the row is queued again, and after a successful one it runs on. */
  lemma StaleCopyRequeues(queued: Job, id: nat)
    requires queued.status == Queued
    ensures var running := queued.(status := Running);
      && PatchedRow(running, queued, false, id).status == Queued
      && PatchedRow(running, queued, true, id).status == Running
  {
  }

  datatype StatusOrder = Season(calm: bool) | State(job: Job, text: string)

  /** What the outside asks of the service. */
  datatype Order =
    | Forecast(calm: bool)
    | Save(jobId: string, head: string, body: string)
    | Reconcile(given: OutputIntent)

  lemma FreshOk(o: Owner, i: OutputIntent)
    requires i.supersededBody == "" && i.supersededDigest == None
    ensures IntentOk(o, i)
  {
  }

  datatype Reading = Reading(head: string, generation: Option<nat>)

  /** What posting comes to in calm weather. */
  ghost predicate Predicted(w: World, intent: OutputIntent, job: Job, p: Posting) {
    if !ValidOID(w.liveHead) then p.PostFailed?
    else if Outdated(w, intent, job) then p.Discarded?
    else p.Posted?
  }

  /** The live head or the generation has moved on. */
  predicate Outdated(w: World, intent: OutputIntent, job: Job) {
    w.liveHead != intent.exactHead || Newer(GenerationOf(w), job)
  }

  lemma ReadyToCreate(o: Owner, log: seq<Entry>, w: World, intent: OutputIntent, job: Job, g: Option<nat>)
    requires w.job == Some(job) && Matches(w.saved, intent) && !Newer(g, job)
    requires Before(log, |log|, [Scanned(Absent), HeadRead(intent.exactHead), StateRead(g)])
    ensures CreateReady(o, true, log, |log|, w, WithMarker(o.marker, intent.body))
  {
    hide Before, WithMarker;
  }

  predicate Matches(saved: Option<OutputIntent>, i: OutputIntent) {
    saved.Some? && saved.value.jobId == i.jobId && saved.value.exactHead == i.exactHead
    && saved.value.action == i.action && DigestOf(saved.value.body) == DigestOf(i.body)
  }

  /** In plain terms: the recorded id is owned, or the list has at most two thousand comments, or an owned
      comment is among the first two thousand. */
  lemma LocatableIff(o: Owner, w: World, id: nat)
    ensures Locatable(o, w, id) <==>
      || (id > 0 && OwnedUnder(o, w, id))
      || |w.comments| <= MAX_PAGES * PER_PAGE
      || !NoneOwned(o, w.comments, MAX_PAGES * PER_PAGE)
  {
    hide Mine, Owner.Owns, Scan;
    StillScanDecides(o, w.comments, 1);
  }

  function StatusID(w: World, job: Job): nat {
    if job.statusCommentId > 0 then job.statusCommentId
    else if w.job.Some? && w.job.value.statusCommentId > 0 then w.job.value.statusCommentId
    else if w.saved.Some? then w.saved.value.commentId else 0
  }

  /** A known id that is owned, or a scan that decides. */
  ghost predicate Locatable(o: Owner, w: World, id: nat) {
    || (id > 0 && OwnedUnder(o, w, id))
    || Scan(o, Still(w.comments), 1) != Undecided
  }

  /** The owned comment has a body the intent in hand allows. */
  lemma MineAllowed(o: Owner, w: World, i: OutputIntent)
    requires WorldOk(o, true, w) && IntentOk(o, i) && Keeps(w.saved, i)
    ensures Mine(o, w.comments) != [] ==>
      var body := Mine(o, w.comments)[0].body;
      && Allows(o, i, body)
      && (|| body == i.body || body == WithMarker(o.marker, i.body)
          || (i.supersededDigest.Some? && Sha256(body) == i.supersededDigest.value))
  {
    hide Mine, Contains, WithMarker;
  }

  /** The lookup by id tells whether the owned comment has that id. */
  lemma LookupDecides(o: Owner, w: World, id: nat, lookup: Lookup)
    requires UniqueIDs(w.comments) && |Mine(o, w.comments)| <= 1
    requires lookup.Got? ==> lookup.comment in w.comments && lookup.comment.id == id
    requires lookup.NotFound? ==> forall c :: c in w.comments ==> c.id != id
    requires !lookup.LookupFailed?
    ensures lookup.Got? && o.Owns(lookup.comment) <==> OwnedUnder(o, w, id)
    ensures lookup.Got? && o.Owns(lookup.comment) ==> Mine(o, w.comments)[0] == lookup.comment
    ensures lookup.Got? ==>
      && (o.Owns(lookup.comment) <==> o.Wrote(lookup.comment) && Contains(lookup.comment.body, o.marker))
      && (o.Owns(lookup.comment) <==> Ours(o, lookup.comment))
  {
    if lookup.Got? {
      OwnsIff(o, lookup.comment);
    }
    hide Mine, Contains, Owner.Wrote, Ours;
    var mine := Mine(o, w.comments);
    if lookup.Got? {
      MineMembers(o, w.comments, lookup.comment);
    }
    if mine != [] {
      MineMembers(o, w.comments, mine[0]);
      var i :| 0 <= i < |w.comments| && w.comments[i] == mine[0];
      if lookup.Got? {
        var j :| 0 <= j < |w.comments| && w.comments[j] == lookup.comment;
      }
    }
  }

  /** The job is left for another attempt. */
  predicate Unsettling(job: Job, successor: Option<string>) {
    job.status == Uncertain && !job.finished && successor.None?
  }

  ghost predicate CommitReady(o: Owner, log: seq<Entry>, w: World, intent: OutputIntent, job: Job,
      successor: Option<string>)
  {
    && intent.status == job.status
    && (job.status == Completed || job.status == Superseded)
    && job.finished
    && (job.status == Completed ==>
          && successor.None? && job.error == ""
          && CompleteReady(o, log, |log|, intent.exactHead, intent.commentId, job)
          && Mine(o, w.comments) != [] && Mine(o, w.comments)[0].id == intent.commentId)
    && (job.status == Superseded ==>
          SupersedeReady(log, |log|, intent.exactHead, intent.commentId, job, w.pr,
                         CommitIn(w, intent, job, successor).pr)
          && (if intent.commentId == 0 then Mine(o, w.comments) == []
              else Shows(o, w, intent.commentId, intent.supersededBody)))
  }

  lemma BeforeLonger(log: seq<Entry>, e: Entry, i: int, es: seq<Event>)
    requires Before(log, i, es)
    ensures Before(log + [e], i, es)
  {
  }

  lemma ReadyCreate(o: Owner, review: bool, log: seq<Entry>, w: World, body: string)
    requires o.Named() && WorldOk(o, review, w) && Mine(o, w.comments) == []
    requires CreateReady(o, review, log, |log|, w, body) && Contains(body, o.marker) && NoCreate(log, |log|)
    ensures EntryOk(o, review, log + [Entry(Created(FreshID(w)), CreateIn(o, w, body))], |log|)
    ensures WorldOk(o, review, CreateIn(o, w, body))
    ensures Shows(o, CreateIn(o, w, body), FreshID(w), body)
  {
    hide Mine, Contains, Owner.Owns, Owner.Wrote, WithMarker, Before;
    var w' := CreateIn(o, w, body);
    CreatedMine(o, w, body);
    var e := Entry(Created(FreshID(w)), w');
    forall es | Before(log, |log|, es)
      ensures Before(log + [e], |log|, es)
    {
      BeforeLonger(log, e, |log|, es);
    }
  }

  lemma ReadyEdit(o: Owner, review: bool, log: seq<Entry>, w: World, id: nat, body: string)
    requires WorldOk(o, review, w) && Mine(o, w.comments) != [] && Mine(o, w.comments)[0].id == id
    requires EditReady(review, log, |log|, w, body) && Contains(body, o.marker)
    requires review ==> w.saved.value.supersededDigest.Some?
    ensures EntryOk(o, review, log + [Entry(Edited(id), EditIn(w, id, body))], |log|)
    ensures WorldOk(o, review, EditIn(w, id, body))
    ensures Shows(o, EditIn(w, id, body), id, body)
  {
    hide Mine, Contains, Owner.Owns, WithMarker, Before;
    var mine := Mine(o, w.comments)[0];
    MineMembers(o, w.comments, mine);
    forall c | c in w.comments && c.id == id
      ensures o.Owns(c)
    {
      var i, j :| 0 <= i < |w.comments| && 0 <= j < |w.comments| && w.comments[i] == c && w.comments[j] == mine;
    }
    MineEdited(o, w.comments, id, body);
    BeforeLonger(log, Entry(Edited(id), EditIn(w, id, body)), |log|, [IntentSaved]);
  }

  lemma ReadyCommit(o: Owner, log: seq<Entry>, w: World, intent: OutputIntent, job: Job, successor: Option<string>)
    requires WorldOk(o, true, w) && IntentOk(o, intent) && Keeps(w.saved, intent) && CommitAccepts(w, job)
    requires Unsettling(job, successor) || CommitReady(o, log, w, intent, job, successor)
    ensures EntryOk(o, true, log + [Entry(Committed(job.status, w.pr), CommitIn(w, intent, job, successor))], |log|)
    ensures WorldOk(o, true, CommitIn(w, intent, job, successor))
  {
    hide Mine, Contains, Owner.Owns, WithMarker, Before;
    var w' := CommitIn(w, intent, job, successor);
    var e := Entry(Committed(job.status, w.pr), w');
    var longer, n := log + [e], |log|;
    assert WorldOk(o, true, w');
    if job.status == Completed {
      var g :| !Newer(g, job) && Before(log, n, [HeadRead(intent.exactHead), StateRead(g)]);
      BeforeLonger(log, e, n, [HeadRead(intent.exactHead), StateRead(g)]);
      assert longer[n - 2] == log[n - 2];
      assert CompleteReady(o, longer, n, intent.exactHead, intent.commentId, w'.job.value);
    } else if job.status == Superseded {
      SupersedeLonger(log, e, intent.exactHead, intent.commentId, job, w'.job.value, w.pr, w'.pr);
    }
  }

  lemma SupersedeLonger(log: seq<Entry>, e: Entry, exactHead: string, id: nat, job: Job, job': Job,
      before: Option<PRState>, pr: Option<PRState>)
    requires SupersedeReady(log, |log|, exactHead, id, job, before, pr)
    requires job'.generation == job.generation && job'.automatic == job.automatic
    ensures SupersedeReady(log + [e], |log|, exactHead, id, job', before, pr)
  {
    hide Before;
    var head, g :| (head != exactHead || Newer(g, job))
      && Before(log, |log|, if id == 0 then [Scanned(Absent), HeadRead(head), StateRead(g)]
                            else [HeadRead(head), StateRead(g), IntentSaved, Edited(id)])
      && Succeeds(job.automatic, id > 0, head != exactHead, head, before, pr);
    BeforeLonger(log, e, |log|, if id == 0 then [Scanned(Absent), HeadRead(head), StateRead(g)]
                                else [HeadRead(head), StateRead(g), IntentSaved, Edited(id)]);
  }

  lemma ScanFindsMine(o: Owner, views: seq<seq<Comment>>)
    requires |views| == MAX_PAGES && AppendOnly(o, views)
    ensures var m, last := Scan(o, views, 1), views[MAX_PAGES - 1];
      && (m == Absent ==> Mine(o, last) == [])
      && (m.Found? ==> exists c :: c in Mine(o, last) && c.id == m.id && c.body == m.body)
  {
    hide Mine, Owner.Owns, Scan;
    var m, last := Scan(o, views, 1), views[MAX_PAGES - 1];
    ScanSound(o, views, 1);
    MineNone(o, last);
    if m.Found? {
      var c :| Holds(o, last, c) && c.id == m.id && c.body == m.body;
      MineMembers(o, last, c);
    }
  }
}
