/** pkg/server/store_maintenance.go: one bounded pass over terminal jobs and old receipts. `Store` holds the
    buckets; keys of jobs and receipts stand in byte order. */
module Maintenance {
  import opened Text
  import opened Sweep

  datatype PRKey = PRKey(host: string, repo: int, number: int)

  datatype Status =
    | Queued | Running | Unsettled | NeedsAttention
    | Completed | Failed | Superseded | Cancelled | Other(name: string)

  /** A row that does not decode is `BadJob`; `dated` is whether the creation time is set. */
  datatype JobRow =
    | BadJob
    | Job(id: string, dated: bool, pr: PRKey, status: Status, finishedAt: Option<int>, reservations: int,
      commentId: int)

  datatype Receipt =
    | BadReceipt
    | Receipt(dated: bool, receivedAt: int, jobIds: seq<string>)

  datatype IntentStatus = Pending | InProgress | IntentUncertain | Superseding | IntentDone(name: string)

  const COMPLETED := IntentDone("completed")

  datatype IntentRow = BadIntent | Intent(status: IntentStatus, body: string)

  datatype PRRow = BadPR | PRState(active: string, pendingAuto: string, reservedSuccessor: bool)

  /** The marker of a job's output (`status` false) or status comment. */
  datatype Marker = Marker(status: bool, jobId: string)

  /** The uniqueness key "<repo>/<comment>/created". */
  datatype CommentKey = CommentKey(repo: int, comment: int)

  datatype Store = Store(
    jobs: map<nat, JobRow>,
    deliveries: map<nat, Receipt>,
    intents: map<Marker, IntentRow>,
    comments: set<CommentKey>,
    prs: map<PRKey, PRRow>)

  datatype Tally = Tally(scanned: nat, deleted: nat, released: nat, pinned: nat)

  predicate Active(s: Status) {
    s.Queued? || s.Running? || s.Unsettled? || s.NeedsAttention?
  }

  predicate InFlight(row: IntentRow) {
    row.Intent? && (row.status.Pending? || row.status.InProgress? || row.status.IntentUncertain?)
  }

  predicate Readable(row: JobRow) {
    row.Job? && row.id != "" && row.dated
  }

  /** A terminal job older than the retention time. */
  predicate Expired(row: JobRow, now: int, ttl: int) {
    Readable(row) && !Active(row.status) && row.finishedAt.Some? && now - row.finishedAt.value >= ttl
  }

  predicate IntentPins(intents: map<Marker, IntentRow>, m: Marker) {
    m in intents && InFlight(intents[m])
  }

  predicate Pinned(intents: map<Marker, IntentRow>, id: string) {
    IntentPins(intents, Marker(false, id)) || IntentPins(intents, Marker(true, id))
  }

  function ClearedPR(row: PRRow, id: string): PRRow {
    if row.BadPR? then row
    else
      PRState(if row.active == id then "" else row.active,
              if row.pendingAuto == id then "" else row.pendingAuto,
              row.reservedSuccessor && row.pendingAuto != id)
  }

  function ClearPR(prs: map<PRKey, PRRow>, pr: PRKey, id: string): map<PRKey, PRRow> {
    if pr in prs then prs[pr := ClearedPR(prs[pr], id)] else prs
  }

  function Count(b: bool): nat {
    if b then 1 else 0
  }

  /** What maintenance of one job row does to the store. */
  function MaintainJob(s: Store, k: nat, row: JobRow, now: int, ttl: int): Store {
    if !Expired(row, now, ttl) then s
    else
      var prs := ClearPR(s.prs, row.pr, row.id);
      if Pinned(s.intents, row.id) then s.(prs := prs)
      else
        s.(prs := prs,
           jobs := s.jobs - {k},
           comments := if row.commentId > 0 then s.comments - {CommentKey(row.pr.repo, row.commentId)} else s.comments,
           intents := s.intents - {Marker(false, row.id), Marker(true, row.id)})
  }

  function TallyJob(t: Tally, s: Store, row: JobRow, now: int, ttl: int): Tally {
    if !Expired(row, now, ttl) || Pinned(s.intents, row.id) then t.(pinned := t.pinned + 1)
    else
      t.(released := t.released + Count(row.reservations > 0),
         deleted := t.deleted + 1
                    + Count(row.commentId > 0 && CommentKey(row.pr.repo, row.commentId) in s.comments)
                    + Count(Marker(false, row.id) in s.intents) + Count(Marker(true, row.id) in s.intents))
  }

  /** The first row of the jobs bucket with this ID, from a key on. */
  function Lookup(jobs: map<nat, JobRow>, from: nat, id: string): (r: Option<JobRow>)
    ensures r.Some? ==> r.value.Job? && r.value.id == id
    decreases |Above(jobs.Keys, from)|
  {
    match Seek(jobs.Keys, from)
    case None => None
    case Some(k) =>
      AboveNext(jobs.Keys, from, k);
      if jobs[k].Job? && jobs[k].id == id then Some(jobs[k]) else Lookup(jobs, k + 1, id)
  }

  predicate NamesActive(jobs: map<nat, JobRow>, ids: seq<string>) {
    exists i :: 0 <= i < |ids| && Lookup(jobs, 0, ids[i]).Some? && Active(Lookup(jobs, 0, ids[i]).value.status)
  }

  predicate ReceiptExpired(s: Store, row: Receipt, now: int, ttl: int) {
    row.Receipt? && row.dated && now - row.receivedAt >= ttl && row.jobIds != [] && !NamesActive(s.jobs, row.jobIds)
  }

  function MaintainReceipt(s: Store, k: nat, row: Receipt, now: int, ttl: int): Store {
    if ReceiptExpired(s, row, now, ttl) then s.(deliveries := s.deliveries - {k}) else s
  }

  function TallyReceipt(t: Tally, s: Store, row: Receipt, now: int, ttl: int): Tally {
    if ReceiptExpired(s, row, now, ttl) then t.(deleted := t.deleted + 1) else t.(pinned := t.pinned + 1)
  }

  function KeysOf(s: Store): Keys {
    Keys(s.jobs.Keys, s.deliveries.Keys)
  }

  /** One record, if it is still there. */
  function MaintainOne(s: Store, r: Record, now: int, ttl: int): Store {
    if r.second then (if r.key in s.deliveries then MaintainReceipt(s, r.key, s.deliveries[r.key], now, ttl) else s)
    else if r.key in s.jobs then MaintainJob(s, r.key, s.jobs[r.key], now, ttl)
    else s
  }

  /** The records of a call, in the order examined. */
  function MaintainAll(s: Store, rs: seq<Record>, now: int, ttl: int): Store {
    if rs == [] then s else MaintainOne(MaintainAll(s, rs[..|rs| - 1], now, ttl), rs[|rs| - 1], now, ttl)
  }

  function TallyOne(t: Tally, s: Store, r: Record, now: int, ttl: int): Tally {
    if r.second then (if r.key in s.deliveries then TallyReceipt(t, s, s.deliveries[r.key], now, ttl) else t)
    else if r.key in s.jobs then TallyJob(t, s, s.jobs[r.key], now, ttl)
    else t
  }

  /** The counters after the records of a call. */
  function TallyAll(t: Tally, s: Store, rs: seq<Record>, now: int, ttl: int): Tally {
    if rs == [] then t
    else
      var front := rs[..|rs| - 1];
      TallyOne(TallyAll(t, s, front, now, ttl), MaintainAll(s, front, now, ttl), rs[|rs| - 1], now, ttl)
  }

  // ----- What one record's maintenance keeps -----

  /** A job is deleted exactly when it is an expired terminal job that no intent in flight pins; every other
      job row stays as it was. */
  lemma JobDeletedIff(s: Store, k: nat, now: int, ttl: int)
    requires k in s.jobs
    ensures var s' := MaintainJob(s, k, s.jobs[k], now, ttl);
      && (k !in s'.jobs <==> Expired(s.jobs[k], now, ttl) && !Pinned(s.intents, s.jobs[k].id))
      && s'.jobs.Keys + {k} == s.jobs.Keys
      && (forall j :: j in s'.jobs ==> s'.jobs[j] == s.jobs[j])
      && s'.deliveries == s.deliveries
  {
  }

  /** What goes with an expired job: its PR state forgets it, and when it is deleted its comment key and its
      two intents are gone; nothing else changes. */
  lemma JobTakesWith(s: Store, k: nat, now: int, ttl: int)
    requires k in s.jobs && s.jobs[k].Job?
    ensures var row := s.jobs[k]; var s' := MaintainJob(s, k, row, now, ttl); var gone := k !in s'.jobs;
      && (forall m :: m in s'.intents <==> m in s.intents && !(gone && m.jobId == row.id))
      && (forall m :: m in s'.intents ==> s'.intents[m] == s.intents[m])
      && (forall c :: c in s'.comments <==>
            c in s.comments && !(gone && row.commentId > 0 && c == CommentKey(row.pr.repo, row.commentId)))
      && s'.prs.Keys == s.prs.Keys
      && (forall pr :: pr in s.prs && (pr != row.pr || !Expired(row, now, ttl)) ==> s'.prs[pr] == s.prs[pr])
      && (Expired(row, now, ttl) && row.pr in s.prs && s.prs[row.pr].PRState? ==>
            && s'.prs[row.pr].PRState? && s'.prs[row.pr].active != row.id && s'.prs[row.pr].pendingAuto != row.id)
  {
    var row := s.jobs[k];
    assert forall m: Marker :: m.jobId == row.id ==> m == Marker(false, row.id) || m == Marker(true, row.id);
  }

  /** References of PR states point at existing jobs of their own PR. */
  predicate References(jobs: map<nat, JobRow>, pr: PRKey, id: string) {
    exists k :: k in jobs && jobs[k].Job? && jobs[k].id == id && jobs[k].pr == pr
  }

  predicate RefsOk(s: Store) {
    forall pr :: pr in s.prs && s.prs[pr].PRState? ==>
      && (s.prs[pr].active != "" ==> References(s.jobs, pr, s.prs[pr].active))
      && (s.prs[pr].pendingAuto != "" ==> References(s.jobs, pr, s.prs[pr].pendingAuto))
  }

  lemma ReferenceKept(jobs: map<nat, JobRow>, k: nat, pr: PRKey, id: string)
    requires References(jobs, pr, id)
    requires k in jobs ==> !(jobs[k].Job? && jobs[k].id == id && jobs[k].pr == pr)
    ensures References(jobs - {k}, pr, id)
  {
    var j :| j in jobs && jobs[j].Job? && jobs[j].id == id && jobs[j].pr == pr;
    assert j in jobs - {k};
  }

  lemma JobKeepsRefs(s: Store, k: nat, now: int, ttl: int)
    requires k in s.jobs && RefsOk(s)
    ensures RefsOk(MaintainJob(s, k, s.jobs[k], now, ttl))
  {
    hide References;
    var row := s.jobs[k];
    var s' := MaintainJob(s, k, row, now, ttl);
    forall pr | pr in s'.prs && s'.prs[pr].PRState?
      ensures s'.prs[pr].active != "" ==> References(s'.jobs, pr, s'.prs[pr].active)
      ensures s'.prs[pr].pendingAuto != "" ==> References(s'.jobs, pr, s'.prs[pr].pendingAuto)
    {
      if s'.jobs != s.jobs {
        if s'.prs[pr].active != "" {
          ReferenceKept(s.jobs, k, pr, s'.prs[pr].active);
        }
        if s'.prs[pr].pendingAuto != "" {
          ReferenceKept(s.jobs, k, pr, s'.prs[pr].pendingAuto);
        }
      }
    }
  }

  /** What no maintenance takes away: active jobs, intents in flight, and jobs that lack a finishing time. */
  predicate Keeps(s: Store, s': Store) {
    && s'.jobs.Keys <= s.jobs.Keys && s'.deliveries.Keys <= s.deliveries.Keys
    && (forall k :: k in s'.jobs ==> s'.jobs[k] == s.jobs[k])
    && (forall k :: k in s'.deliveries ==> s'.deliveries[k] == s.deliveries[k])
    && (forall k :: k in s.jobs && !(Readable(s.jobs[k]) && !Active(s.jobs[k].status) && s.jobs[k].finishedAt.Some?) ==>
          k in s'.jobs)
    && (forall m :: m in s'.intents ==> m in s.intents && s'.intents[m] == s.intents[m])
    && (forall m :: m in s.intents && InFlight(s.intents[m]) ==> m in s'.intents)
    && (RefsOk(s) ==> RefsOk(s'))
  }

  lemma OneKeeps(s: Store, r: Record, now: int, ttl: int)
    ensures Keeps(s, MaintainOne(s, r, now, ttl))
  {
    hide RefsOk, Lookup;
    if r.second {
      assert MaintainOne(s, r, now, ttl).jobs == s.jobs;
      SameRefs(s, MaintainOne(s, r, now, ttl));
    } else if r.key in s.jobs {
      JobDeletedIff(s, r.key, now, ttl);
      if RefsOk(s) {
        JobKeepsRefs(s, r.key, now, ttl);
      }
    }
  }

  lemma SameRefs(s: Store, s': Store)
    requires s'.jobs == s.jobs && s'.prs == s.prs
    ensures RefsOk(s) == RefsOk(s')
  {
  }

  lemma KeepsTransitive(a: Store, b: Store, c: Store)
    requires Keeps(a, b) && Keeps(b, c)
    ensures Keeps(a, c)
  {
    hide RefsOk;
  }

  lemma {:induction false} AllKeeps(s: Store, rs: seq<Record>, now: int, ttl: int)
    ensures Keeps(s, MaintainAll(s, rs, now, ttl))
  {
    if rs == [] {
      assert MaintainAll(s, rs, now, ttl) == s;
    } else {
      var before := MaintainAll(s, rs[..|rs| - 1], now, ttl);
      AllKeeps(s, rs[..|rs| - 1], now, ttl);
      OneKeeps(before, rs[|rs| - 1], now, ttl);
      hide Keeps;
      KeepsTransitive(s, before, MaintainAll(s, rs, now, ttl));
    }
  }

  // ----- Receipts of active jobs -----

  lemma {:induction false} LookupSame(jobs: map<nat, JobRow>, a: nat, b: nat, id: string)
    requires Above(jobs.Keys, a) == Above(jobs.Keys, b)
    ensures Lookup(jobs, a, id) == Lookup(jobs, b, id)
  {
    hide Above;
    if Seek(jobs.Keys, a).Some? {
      SeekIs(jobs.Keys, b, Seek(jobs.Keys, a).value);
    }
  }

  /** The row an ID stands for is found as long as it is kept. */
  lemma {:induction false} LookupKept(jobs: map<nat, JobRow>, after: map<nat, JobRow>, from: nat, id: string)
    requires after.Keys <= jobs.Keys && forall k :: k in after ==> after[k] == jobs[k]
    requires forall k :: k in jobs && jobs[k].Job? && Active(jobs[k].status) ==> k in after
    requires Lookup(jobs, from, id).Some? && Active(Lookup(jobs, from, id).value.status)
    ensures Lookup(after, from, id) == Lookup(jobs, from, id)
    decreases |Above(jobs.Keys, from)|
  {
    var k := Seek(jobs.Keys, from).value;
    AboveNext(jobs.Keys, from, k);
    if k in after {
      assert Above(after.Keys, from) <= Above(jobs.Keys, from);
      SeekIs(after.Keys, from, k);
    } else {
      assert Above(after.Keys, from) == Above(after.Keys, k + 1) by {
        forall j
          ensures j in Above(after.Keys, from) <==> j in Above(after.Keys, k + 1)
        {
          assert j in Above(after.Keys, from) ==> j in Above(jobs.Keys, from);
        }
      }
      LookupSame(after, from, k + 1, id);
    }
    if !(jobs[k].Job? && jobs[k].id == id) {
      LookupKept(jobs, after, k + 1, id);
    }
  }

  lemma NamesActiveKept(s: Store, s': Store, ids: seq<string>)
    requires Keeps(s, s') && NamesActive(s.jobs, ids)
    ensures NamesActive(s'.jobs, ids)
  {
    hide Lookup, RefsOk;
    var i :| 0 <= i < |ids| && Lookup(s.jobs, 0, ids[i]).Some? && Active(Lookup(s.jobs, 0, ids[i]).value.status);
    LookupKept(s.jobs, s'.jobs, 0, ids[i]);
  }

  /** A receipt is deleted exactly when it is old, names jobs, and none of them is active. */
  lemma ReceiptDeletedIff(s: Store, k: nat, now: int, ttl: int)
    requires k in s.deliveries
    ensures var s' := MaintainReceipt(s, k, s.deliveries[k], now, ttl);
      && (k !in s'.deliveries <==> ReceiptExpired(s, s.deliveries[k], now, ttl))
      && (forall j :: j in s.deliveries && j != k ==> j in s'.deliveries && s'.deliveries[j] == s.deliveries[j])
      && s'.jobs == s.jobs
  {
  }

  /** No pass deletes a receipt while a job it names is active. */
  lemma {:induction false} ActiveReceiptKept(s: Store, k: nat, rs: seq<Record>, now: int, ttl: int)
    requires k in s.deliveries && s.deliveries[k].Receipt? && NamesActive(s.jobs, s.deliveries[k].jobIds)
    ensures var s' := MaintainAll(s, rs, now, ttl); k in s'.deliveries && s'.deliveries[k] == s.deliveries[k]
  {
    if rs != [] {
      var before := MaintainAll(s, rs[..|rs| - 1], now, ttl);
      ActiveReceiptKept(s, k, rs[..|rs| - 1], now, ttl);
      AllKeeps(s, rs[..|rs| - 1], now, ttl);
      NamesActiveKept(s, before, s.deliveries[k].jobIds);
      hide Keeps, NamesActive;
      var r := rs[|rs| - 1];
      if r.second && r.key in before.deliveries {
        ReceiptDeletedIff(before, r.key, now, ttl);
      }
      assert !r.second ==> MaintainOne(before, r, now, ttl).deliveries == before.deliveries;
    }
  }

  // ----- Calls -----

  datatype World = World(store: Store, cursor: Cursor)

  datatype Call = Call(now: int, ttl: int, limit: nat)

  function Pass(w: World, c: Call): World {
    World(MaintainAll(w.store, Examined(KeysOf(w.store), w.cursor, c.limit), c.now, c.ttl),
          After(KeysOf(w.store), w.cursor, c.limit))
  }

  function Passes(w: World, calls: seq<Call>): World {
    if calls == [] then w else Pass(Passes(w, calls[..|calls| - 1]), calls[|calls| - 1])
  }

  /** Over any run of passes: active jobs and intents in flight are kept as they were, nothing is added, and
      PR states go on pointing at existing jobs. */
  lemma {:induction false} PassesKeep(w: World, calls: seq<Call>)
    ensures Keeps(w.store, Passes(w, calls).store)
  {
    if calls == [] {
      AllKeeps(w.store, [], 0, 0);
    } else {
      hide Keeps, Examined, After;
      var before := Passes(w, calls[..|calls| - 1]);
      var c := calls[|calls| - 1];
      PassesKeep(w, calls[..|calls| - 1]);
      AllKeeps(before.store, Examined(KeysOf(before.store), before.cursor, c.limit), c.now, c.ttl);
      KeepsTransitive(w.store, before.store, Pass(before, c).store);
    }
  }

  lemma {:induction false} PassesKeepActiveReceipt(w: World, calls: seq<Call>, k: nat)
    requires k in w.store.deliveries && w.store.deliveries[k].Receipt?
    requires NamesActive(w.store.jobs, w.store.deliveries[k].jobIds)
    ensures k in Passes(w, calls).store.deliveries
         && Passes(w, calls).store.deliveries[k] == w.store.deliveries[k]
  {
    if calls != [] {
      hide Keeps, NamesActive, Examined, After;
      var before := Passes(w, calls[..|calls| - 1]);
      var c := calls[|calls| - 1];
      PassesKeepActiveReceipt(w, calls[..|calls| - 1], k);
      PassesKeep(w, calls[..|calls| - 1]);
      NamesActiveKept(w.store, before.store, w.store.deliveries[k].jobIds);
      ActiveReceiptKept(before.store, k, Examined(KeysOf(before.store), before.cursor, c.limit), c.now, c.ttl);
    }
  }

  // ----- Which jobs go, over any run of passes -----

  /** Maintenance neither adds nor takes away what pins a job. */
  lemma PinsSame(s: Store, s': Store, id: string)
    requires Keeps(s, s')
    ensures Pinned(s'.intents, id) == Pinned(s.intents, id)
  {
    hide RefsOk, InFlight;
    assert forall m :: IntentPins(s.intents, m) == IntentPins(s'.intents, m);
  }

  /** An expired job that nothing in flight pins. */
  predicate Due(row: JobRow, intents: map<Marker, IntentRow>, now: int, ttl: int) {
    Expired(row, now, ttl) && !Pinned(intents, row.id)
  }

  predicate Taken(s: Store, row: JobRow) {
    row.Job? && Marker(false, row.id) !in s.intents && Marker(true, row.id) !in s.intents
    && (row.commentId > 0 ==> CommentKey(row.pr.repo, row.commentId) !in s.comments)
  }

  lemma OneTakesJob(s: Store, r: Record, k: nat, now: int, ttl: int)
    requires k in s.jobs
    ensures var s' := MaintainOne(s, r, now, ttl);
      && (k !in s'.jobs <==> r == Record(false, k) && Due(s.jobs[k], s.intents, now, ttl))
      && (k !in s'.jobs ==> Taken(s', s.jobs[k]))
      && s'.intents.Keys <= s.intents.Keys && s'.comments <= s.comments
  {
    hide Active, Pinned, ReceiptExpired, ClearPR;
    if !r.second && r.key in s.jobs {
      JobDeletedIff(s, r.key, now, ttl);
      if s.jobs[r.key].Job? {
        JobTakesWith(s, r.key, now, ttl);
      }
    }
  }

  /** A call takes a job exactly when it examines it, the job is expired and no intent in flight pins it; its
      comment key and its intents go with it. */
  lemma {:induction false} CallTakesJobIff(s: Store, rs: seq<Record>, k: nat, now: int, ttl: int)
    requires k in s.jobs
    ensures var s' := MaintainAll(s, rs, now, ttl);
      && (k !in s'.jobs <==> Record(false, k) in rs && Due(s.jobs[k], s.intents, now, ttl))
      && (k !in s'.jobs ==> Taken(s', s.jobs[k]))
  {
    if rs != [] {
      var front, r := rs[..|rs| - 1], rs[|rs| - 1];
      var before := MaintainAll(s, front, now, ttl);
      CallTakesJobIff(s, front, k, now, ttl);
      AllKeeps(s, front, now, ttl);
      OneKeeps(before, r, now, ttl);
      assert rs == front + [r];
      if k in before.jobs {
        OneTakesJob(before, r, k, now, ttl);
        if s.jobs[k].Job? {
          PinsSame(s, before, s.jobs[k].id);
        }
      } else {
        OneShrinks(before, r, now, ttl);
      }
      hide Pinned, RefsOk, MaintainOne;
    }
  }

  lemma OneShrinks(s: Store, r: Record, now: int, ttl: int)
    ensures var s' := MaintainOne(s, r, now, ttl);
      s'.jobs.Keys <= s.jobs.Keys && s'.intents.Keys <= s.intents.Keys && s'.comments <= s.comments
  {
  }

  lemma {:induction false} AllShrinks(s: Store, rs: seq<Record>, now: int, ttl: int)
    ensures var s' := MaintainAll(s, rs, now, ttl);
      s'.jobs.Keys <= s.jobs.Keys && s'.intents.Keys <= s.intents.Keys && s'.comments <= s.comments
  {
    if rs != [] {
      hide MaintainOne;
      AllShrinks(s, rs[..|rs| - 1], now, ttl);
      OneShrinks(MaintainAll(s, rs[..|rs| - 1], now, ttl), rs[|rs| - 1], now, ttl);
    }
  }

  /** Some call examined the job when it was due. */
  ghost predicate TakenBySome(w: World, calls: seq<Call>, k: nat)
    requires k in w.store.jobs
  {
    exists i :: 0 <= i < |calls| && TakenAt(w, calls, i, k)
  }

  ghost predicate TakenAt(w: World, calls: seq<Call>, i: nat, k: nat)
    requires k in w.store.jobs && i < |calls|
  {
    var before := Passes(w, calls[..i]);
    && Record(false, k) in Examined(KeysOf(before.store), before.cursor, calls[i].limit)
    && Due(w.store.jobs[k], w.store.intents, calls[i].now, calls[i].ttl)
  }

  lemma {:induction false} TakenSnoc(w: World, calls: seq<Call>, k: nat)
    requires k in w.store.jobs && calls != []
    ensures TakenBySome(w, calls, k) <==> TakenBySome(w, calls[..|calls| - 1], k) || TakenAt(w, calls, |calls| - 1, k)
  {
    hide Passes, Examined, Due, KeysOf;
    var front := calls[..|calls| - 1];
    forall i | 0 <= i < |front|
      ensures TakenAt(w, front, i, k) <==> TakenAt(w, calls, i, k)
    {
      assert front[..i] == calls[..i];
    }
  }

  /** Over any run of passes a job goes exactly when some call examines it at a time when it is expired and
      nothing in flight pins it; its comment key and its intents are gone with it. */
  lemma {:induction false} PassesTakeJobIff(w: World, calls: seq<Call>, k: nat)
    requires k in w.store.jobs
    ensures var after := Passes(w, calls).store;
      && (k !in after.jobs <==> TakenBySome(w, calls, k))
      && (k !in after.jobs ==> Taken(after, w.store.jobs[k]))
  {
    if calls != [] {
      var front, c := calls[..|calls| - 1], calls[|calls| - 1];
      var before := Passes(w, front);
      var rs := Examined(KeysOf(before.store), before.cursor, c.limit);
      PassesTakeJobIff(w, front, k);
      PassesKeep(w, front);
      TakenSnoc(w, calls, k);
      AllShrinks(before.store, rs, c.now, c.ttl);
      if k in before.store.jobs {
        CallTakesJobIff(before.store, rs, k, c.now, c.ttl);
        if w.store.jobs[k].Job? {
          PinsSame(w.store, before.store, w.store.jobs[k].id);
        }
      }
      hide Examined, After, MaintainAll, Pinned, TakenBySome, RefsOk, KeysOf, Expired;
    }
  }

  /** So a job is kept while an intent of its own is in flight. */
  lemma {:induction false} PinnedJobKept(w: World, calls: seq<Call>, k: nat)
    requires k in w.store.jobs && w.store.jobs[k].Job? && Pinned(w.store.intents, w.store.jobs[k].id)
    ensures k in Passes(w, calls).store.jobs
  {
    PassesTakeJobIff(w, calls, k);
    hide Passes, Examined, Pinned;
  }

  // ----- Age, on the fields of the rows -----

  /** No other row has the job's ID or the comment that asked for it. */
  predicate Sole(jobs: map<nat, JobRow>, k: nat)
    requires k in jobs && jobs[k].Job?
  {
    forall j :: j in jobs && j != k && jobs[j].Job? ==>
      && jobs[j].id != jobs[k].id
      && (jobs[j].commentId != jobs[k].commentId || jobs[j].pr.repo != jobs[k].pr.repo)
  }

  /** At the time of the call the job is queued, running or waiting for someone, or it finished less than the
      retention time ago, or its row does not say what it must. */
  predicate Recent(row: JobRow, c: Call)
    requires row.Job?
  {
    || row.status == Queued || row.status == Running || row.status == Unsettled || row.status == NeedsAttention
    || row.finishedAt.None? || c.now - row.finishedAt.value < c.ttl
    || row.id == "" || !row.dated
  }

  predicate SameReferences(before: PRRow, after: PRRow, id: string) {
    before.PRState? ==>
      && after.PRState?
      && (after.active == id <==> before.active == id) && (after.pendingAuto == id <==> before.pendingAuto == id)
      && (before.pendingAuto == id ==> after.reservedSuccessor == before.reservedSuccessor)
  }

  /** The job is there as it was, and so are its comment key, its two intents and the references to it. */
  ghost predicate Untouched(s: Store, s': Store, k: nat)
    requires k in s.jobs && s.jobs[k].Job?
  {
    var row := s.jobs[k];
    && k in s'.jobs && s'.jobs[k] == row
    && (var key := CommentKey(row.pr.repo, row.commentId);
        row.commentId > 0 ==> (key in s'.comments <==> key in s.comments))
    && (forall m: Marker :: m.jobId == row.id ==>
          (m in s'.intents <==> m in s.intents) && (m in s.intents ==> s'.intents[m] == s.intents[m]))
    && (forall pr :: pr in s.prs ==> pr in s'.prs && (row.id != "" ==> SameReferences(s.prs[pr], s'.prs[pr], row.id)))
  }

  lemma JobSpares(s: Store, j: nat, k: nat, c: Call)
    requires j in s.jobs && k in s.jobs && s.jobs[k].Job? && Sole(s.jobs, k) && Recent(s.jobs[k], c)
    ensures Untouched(s, MaintainJob(s, j, s.jobs[j], c.now, c.ttl), k)
  {
    hide Pinned;
    if s.jobs[j].Job? {
      JobTakesWith(s, j, c.now, c.ttl);
    }
    JobDeletedIff(s, j, c.now, c.ttl);
  }

  lemma OneSpares(s: Store, r: Record, k: nat, c: Call)
    requires k in s.jobs && s.jobs[k].Job? && Sole(s.jobs, k) && Recent(s.jobs[k], c)
    ensures var s' := MaintainOne(s, r, c.now, c.ttl);
      Untouched(s, s', k) && s'.jobs.Keys <= s.jobs.Keys && forall j :: j in s'.jobs ==> s'.jobs[j] == s.jobs[j]
  {
    hide MaintainJob, ReceiptExpired, Sole, Recent;
    if !r.second && r.key in s.jobs {
      JobSpares(s, r.key, k, c);
      JobDeletedIff(s, r.key, c.now, c.ttl);
    }
  }

  lemma UntouchedOn(a: Store, b: Store, d: Store, k: nat)
    requires k in a.jobs && a.jobs[k].Job? && Untouched(a, b, k) && Untouched(b, d, k)
    ensures Untouched(a, d, k)
  {
  }

  lemma SoleOn(jobs: map<nat, JobRow>, less: map<nat, JobRow>, k: nat)
    requires k in jobs && jobs[k].Job? && Sole(jobs, k)
    requires less.Keys <= jobs.Keys && k in less && forall j :: j in less ==> less[j] == jobs[j]
    ensures Sole(less, k)
  {
  }

  lemma {:induction false} CallSpares(s: Store, rs: seq<Record>, k: nat, c: Call)
    requires k in s.jobs && s.jobs[k].Job? && Sole(s.jobs, k) && Recent(s.jobs[k], c)
    ensures var s' := MaintainAll(s, rs, c.now, c.ttl);
      Untouched(s, s', k) && s'.jobs.Keys <= s.jobs.Keys && forall j :: j in s'.jobs ==> s'.jobs[j] == s.jobs[j]
  {
    if rs == [] {
      MaintainNothing(s, c.now, c.ttl);
    } else {
      hide Untouched, MaintainOne, Recent, Sole;
      var before := MaintainAll(s, rs[..|rs| - 1], c.now, c.ttl);
      CallSpares(s, rs[..|rs| - 1], k, c);
      assert k in before.jobs && before.jobs[k] == s.jobs[k] by { StillThere(s, before, k); }
      SoleOn(s.jobs, before.jobs, k);
      OneSpares(before, rs[|rs| - 1], k, c);
      UntouchedOn(s, before, MaintainAll(s, rs, c.now, c.ttl), k);
    }
  }

  lemma StillThere(s: Store, s': Store, k: nat)
    requires k in s.jobs && s.jobs[k].Job? && Untouched(s, s', k)
    ensures k in s'.jobs && s'.jobs[k] == s.jobs[k]
  {
  }

  /** Over any run of passes: a job that at every call is unfinished, or finished less than the retention time
      ago, is untouched. */
  lemma {:induction false} RecentJobKept(w: World, calls: seq<Call>, k: nat)
    requires k in w.store.jobs && w.store.jobs[k].Job? && Sole(w.store.jobs, k)
    requires forall i :: 0 <= i < |calls| ==> Recent(w.store.jobs[k], calls[i])
    ensures Untouched(w.store, Passes(w, calls).store, k)
  {
    if calls != [] {
      hide Untouched, Examined, After, MaintainAll, Sole, RefsOk, Recent;
      var before, c := Passes(w, calls[..|calls| - 1]), calls[|calls| - 1];
      RecentJobKept(w, calls[..|calls| - 1], k);
      PassesKeep(w, calls[..|calls| - 1]);
      StillThere(w.store, before.store, k);
      SoleOn(w.store.jobs, before.store.jobs, k);
      CallSpares(before.store, Examined(KeysOf(before.store), before.cursor, c.limit), k, c);
      UntouchedOn(w.store, before.store, Passes(w, calls).store, k);
    }
  }

  /** A finished job with readable fields that is at least the retention time old, and neither of whose
      intents is pending, in progress or uncertain. */
  predicate Spent(s: Store, k: nat, c: Call) {
    && k in s.jobs && s.jobs[k].Job? && s.jobs[k].id != "" && s.jobs[k].dated
    && !(s.jobs[k].status in {Queued, Running, Unsettled, NeedsAttention})
    && s.jobs[k].finishedAt.Some? && c.now - s.jobs[k].finishedAt.value >= c.ttl
    && forall status: bool :: Marker(status, s.jobs[k].id) in s.intents ==>
         var row := s.intents[Marker(status, s.jobs[k].id)];
         row.BadIntent? || !(row.status in {Pending, InProgress, IntentUncertain})
  }

  /** The pass that examines a spent job deletes it, its comment key and its intents; and whatever the pass
      deletes was spent. */
  lemma PassTakesSpent(w: World, c: Call, k: nat)
    requires k in w.store.jobs
    ensures var after := Pass(w, c).store;
      && (k !in after.jobs <==>
            Record(false, k) in Examined(KeysOf(w.store), w.cursor, c.limit) && Spent(w.store, k, c))
      && (k !in after.jobs ==> Taken(after, w.store.jobs[k]))
  {
    CallTakesJobIff(w.store, Examined(KeysOf(w.store), w.cursor, c.limit), k, c.now, c.ttl);
    DueIsSpent(w.store, k, c);
    hide Examined, MaintainAll, Spent, Due, Taken;
  }

  lemma DueIsSpent(s: Store, k: nat, c: Call)
    requires k in s.jobs
    ensures Due(s.jobs[k], s.intents, c.now, c.ttl) <==> Spent(s, k, c)
  {
    if s.jobs[k].Job? {
      var id := s.jobs[k].id;
      assert forall status: bool :: Marker(status, id) == Marker(false, id) || Marker(status, id) == Marker(true, id);
    }
  }

  /** Over any run of passes: a receipt that at every call is younger than the retention time is kept, and so
      is one that names no job or does not decode. */
  lemma {:induction false} RecentReceiptKept(w: World, calls: seq<Call>, k: nat)
    requires k in w.store.deliveries
    requires var row := w.store.deliveries[k];
      row.BadReceipt? || !row.dated || row.jobIds == []
      || forall i :: 0 <= i < |calls| ==> calls[i].now - row.receivedAt < calls[i].ttl
    ensures var after := Passes(w, calls).store; k in after.deliveries && after.deliveries[k] == w.store.deliveries[k]
  {
    if calls != [] {
      hide Examined, After, Lookup, NamesActive;
      var before, c := Passes(w, calls[..|calls| - 1]), calls[|calls| - 1];
      RecentReceiptKept(w, calls[..|calls| - 1], k);
      CallSparesReceipt(before.store, Examined(KeysOf(before.store), before.cursor, c.limit), k, c);
    }
  }

  lemma {:induction false} CallSparesReceipt(s: Store, rs: seq<Record>, k: nat, c: Call)
    requires k in s.deliveries
    requires var row := s.deliveries[k];
      row.BadReceipt? || !row.dated || row.jobIds == [] || c.now - row.receivedAt < c.ttl
    ensures var s' := MaintainAll(s, rs, c.now, c.ttl); k in s'.deliveries && s'.deliveries[k] == s.deliveries[k]
  {
    if rs != [] {
      hide NamesActive, MaintainJob;
      var before := MaintainAll(s, rs[..|rs| - 1], c.now, c.ttl);
      CallSparesReceipt(s, rs[..|rs| - 1], k, c);
      var r := rs[|rs| - 1];
      if r.second && r.key in before.deliveries {
        ReceiptDeletedIff(before, r.key, c.now, c.ttl);
      } else if !r.second && r.key in before.jobs {
        JobDeletedIff(before, r.key, c.now, c.ttl);
      }
    }
  }

  /** An old receipt that names jobs, none of which is queued, running or waiting for someone. */
  predicate SpentReceipt(s: Store, k: nat, c: Call) {
    && k in s.deliveries && s.deliveries[k].Receipt? && s.deliveries[k].dated
    && c.now - s.deliveries[k].receivedAt >= c.ttl && s.deliveries[k].jobIds != []
    && forall j :: j in s.jobs && s.jobs[j].Job? && s.jobs[j].id in s.deliveries[k].jobIds ==>
         !(s.jobs[j].status in {Queued, Running, Unsettled, NeedsAttention})
  }

  lemma {:induction false} LookupIn(jobs: map<nat, JobRow>, from: nat, id: string)
    ensures Lookup(jobs, from, id).Some? ==> exists j :: j in jobs && jobs[j] == Lookup(jobs, from, id).value
    decreases |Above(jobs.Keys, from)|
  {
    match Seek(jobs.Keys, from)
    case None =>
    case Some(k) =>
      AboveNext(jobs.Keys, from, k);
      LookupIn(jobs, k + 1, id);
  }

  lemma SpentReceiptExpired(s: Store, k: nat, c: Call)
    requires SpentReceipt(s, k, c)
    ensures ReceiptExpired(s, s.deliveries[k], c.now, c.ttl)
  {
    hide Lookup;
    var ids := s.deliveries[k].jobIds;
    forall i | 0 <= i < |ids| && Lookup(s.jobs, 0, ids[i]).Some?
      ensures !Active(Lookup(s.jobs, 0, ids[i]).value.status)
    {
      LookupIn(s.jobs, 0, ids[i]);
    }
  }

  /** The pass that examines a spent receipt deletes it. */
  lemma {:induction false} CallTakesReceipt(s: Store, rs: seq<Record>, k: nat, c: Call)
    requires SpentReceipt(s, k, c) && Record(true, k) in rs
    ensures k !in MaintainAll(s, rs, c.now, c.ttl).deliveries
  {
    hide RefsOk, ReceiptExpired, MaintainJob;
    var front, r := rs[..|rs| - 1], rs[|rs| - 1];
    var before := MaintainAll(s, front, c.now, c.ttl);
    AllKeeps(s, front, c.now, c.ttl);
    OneKeeps(before, r, c.now, c.ttl);
    if r == Record(true, k) {
      if k in before.deliveries {
        SpentReceiptExpired(before, k, c);
        ReceiptDeletedIff(before, k, c.now, c.ttl);
      }
    } else {
      CallTakesReceipt(s, front, k, c);
    }
  }

  // ----- Only examined records go -----

  lemma OneKeepsOthers(s: Store, r: Record, q: Record, now: int, ttl: int)
    requires IsRecord(KeysOf(s), q) && q != r
    ensures IsRecord(KeysOf(MaintainOne(s, r, now, ttl)), q)
  {
    hide ReceiptExpired, Expired, Pinned;
  }

  lemma {:induction false} AllKeepsOthers(s: Store, rs: seq<Record>, q: Record, now: int, ttl: int)
    requires IsRecord(KeysOf(s), q) && q !in rs
    ensures IsRecord(KeysOf(MaintainAll(s, rs, now, ttl)), q)
  {
    if rs != [] {
      AllKeepsOthers(s, rs[..|rs| - 1], q, now, ttl);
      OneKeepsOthers(MaintainAll(s, rs[..|rs| - 1], now, ttl), rs[|rs| - 1], q, now, ttl);
    }
  }

  function StateOf(w: World): State {
    State(KeysOf(w.store), w.cursor)
  }

  /** A pass is a step of the sweep. */
  lemma PassSteps(w: World, c: Call)
    ensures Step(StateOf(w), StateOf(Pass(w, c)), c.limit)
  {
    hide Examined, After, MaintainAll;
    var rs := Examined(KeysOf(w.store), w.cursor, c.limit);
    AllKeeps(w.store, rs, c.now, c.ttl);
    forall k | k in w.store.jobs && Record(false, k) !in rs
      ensures k in Pass(w, c).store.jobs
    {
      AllKeepsOthers(w.store, rs, Record(false, k), c.now, c.ttl);
    }
    forall k | k in w.store.deliveries && Record(true, k) !in rs
      ensures k in Pass(w, c).store.deliveries
    {
      AllKeepsOthers(w.store, rs, Record(true, k), c.now, c.ttl);
    }
  }

  /** A job that can be deleted is deleted by the pass that examines it. */
  predicate Reclaimable(s: Store, k: nat, now: int, ttl: int) {
    k in s.jobs && Expired(s.jobs[k], now, ttl) && !Pinned(s.intents, s.jobs[k].id)
  }

  lemma StaysReclaimable(s: Store, s': Store, k: nat, now: int, ttl: int)
    requires Keeps(s, s') && Reclaimable(s, k, now, ttl) && k in s'.jobs
    ensures Reclaimable(s', k, now, ttl)
  {
    hide RefsOk;
  }

  lemma OneAddsNoJob(s: Store, r: Record, now: int, ttl: int)
    ensures MaintainOne(s, r, now, ttl).jobs.Keys <= s.jobs.Keys
  {
  }

  lemma {:induction false} ReclaimedWhenExamined(s: Store, rs: seq<Record>, k: nat, now: int, ttl: int)
    requires Reclaimable(s, k, now, ttl) && Record(false, k) in rs
    ensures k !in MaintainAll(s, rs, now, ttl).jobs
  {
    hide Keeps, Expired, Pinned;
    var before := MaintainAll(s, rs[..|rs| - 1], now, ttl);
    AllKeeps(s, rs[..|rs| - 1], now, ttl);
    if rs[|rs| - 1] == Record(false, k) {
      if k in before.jobs {
        StaysReclaimable(s, before, k, now, ttl);
        JobDeletedIff(before, k, now, ttl);
      }
    } else {
      ReclaimedWhenExamined(s, rs[..|rs| - 1], k, now, ttl);
    }
    OneAddsNoJob(before, rs[|rs| - 1], now, ttl);
  }

  lemma {:induction false} GoneStaysGone(w: World, calls: seq<Call>, n: nat, k: nat)
    requires n <= |calls| && k !in Passes(w, calls[..n]).store.jobs
    ensures k !in Passes(w, calls).store.jobs
    decreases |calls|
  {
    if n == |calls| {
      assert calls[..n] == calls;
    } else {
      hide Examined, After, MaintainAll;
      assert calls[..|calls| - 1][..n] == calls[..n];
      GoneStaysGone(w, calls[..|calls| - 1], n, k);
      var before, c := Passes(w, calls[..|calls| - 1]), calls[|calls| - 1];
      AllKeeps(before.store, Examined(KeysOf(before.store), before.cursor, c.limit), c.now, c.ttl);
    }
  }

  function States(w: World, calls: seq<Call>): (r: seq<State>)
    ensures |r| == |calls| + 1
    ensures forall i :: 0 <= i <= |calls| ==> r[i] == StateOf(Passes(w, calls[..i]))
  {
    seq(|calls| + 1, i requires 0 <= i <= |calls| => StateOf(Passes(w, calls[..i])))
  }

  lemma PassesNext(w: World, calls: seq<Call>, i: nat)
    requires i < |calls|
    ensures Passes(w, calls[..i + 1]) == Pass(Passes(w, calls[..i]), calls[i])
  {
    hide Pass;
    assert calls[..i + 1][..i] == calls[..i];
  }

  lemma FirstState(w: World, calls: seq<Call>)
    ensures States(w, calls)[0] == StateOf(w)
  {
    assert calls[..0] == [];
  }

  lemma {:induction false} PassesSweep(w: World, calls: seq<Call>, limit: nat)
    requires forall i :: 0 <= i < |calls| ==> calls[i].limit == limit
    ensures Sweeps(States(w, calls), limit)
  {
    hide Examined, After, MaintainAll, Step, KeysOf;
    forall i | 0 <= i < |calls|
      ensures Step(States(w, calls)[i], States(w, calls)[i + 1], limit)
    {
      assert calls[..i + 1][..i] == calls[..i];
      PassSteps(Passes(w, calls[..i]), calls[i]);
    }
  }

  /** Reclamation: a job that can be deleted is gone after ceil(N / limit) + 1 passes of one limit, where N
      is the number of jobs and receipts. */
  lemma {:induction false} ReclaimedInTime(w: World, calls: seq<Call>, limit: nat, k: nat)
    requires limit > 0 && k in w.store.jobs
    requires forall i :: 0 <= i < |calls| ==>
      calls[i].limit == limit && Reclaimable(w.store, k, calls[i].now, calls[i].ttl)
    requires |calls| >= (|w.store.jobs.Keys| + |w.store.deliveries.Keys| + limit - 1) / limit + 1
    ensures k !in Passes(w, calls).store.jobs
  {
    hide Examined, After, MaintainAll, Step, Keeps, Reclaimable, Sweeps, Passes, Order;
    var run, r := States(w, calls), Record(false, k);
    PassesSweep(w, calls, limit);
    FirstState(w, calls);
    EveryRecordExamined(run, limit, r);
    var i :| 0 <= i < |calls| && r in Examined(run[i].keys, run[i].cursor, limit);
    var before := Passes(w, calls[..i]);
    PassesKeep(w, calls[..i]);
    if k in before.store.jobs {
      StaysReclaimable(w.store, before.store, k, calls[i].now, calls[i].ttl);
      ReclaimedWhenExamined(before.store, Examined(KeysOf(before.store), before.cursor, limit), k, calls[i].now,
        calls[i].ttl);
      PassesNext(w, calls, i);
      GoneStaysGone(w, calls, i + 1, k);
    } else {
      GoneStaysGone(w, calls, i, k);
    }
  }

  lemma MaintainNothing(s: Store, now: int, ttl: int)
    ensures MaintainAll(s, [], now, ttl) == s && forall t :: TallyAll(t, s, [], now, ttl) == t
  {
  }

  lemma {:induction false} MaintainConcat(s: Store, xs: seq<Record>, ys: seq<Record>, now: int, ttl: int)
    ensures MaintainAll(s, xs + ys, now, ttl) == MaintainAll(MaintainAll(s, xs, now, ttl), ys, now, ttl)
  {
    if ys == [] {
      assert xs + ys == xs;
    } else {
      MaintainConcat(s, xs, ys[..|ys| - 1], now, ttl);
      assert (xs + ys)[..|xs + ys| - 1] == xs + ys[..|ys| - 1];
    }
  }

  lemma OtherBucketKept(s: Store, second: bool, keys: seq<nat>, now: int, ttl: int)
    ensures Bucket(KeysOf(MaintainAll(s, Tag(second, keys), now, ttl)), !second) == Bucket(KeysOf(s), !second)
  {
    hide MaintainAll;
    var rs := Tag(second, keys);
    AllKeeps(s, rs, now, ttl);
    var other := Bucket(KeysOf(s), !second);
    forall k | k in other
      ensures k in Bucket(KeysOf(MaintainAll(s, rs, now, ttl)), !second)
    {
      AllKeepsOthers(s, rs, Record(!second, k), now, ttl);
    }
  }

  lemma SecondKept(s: Store, c: Cursor, keys: seq<nat>, now: int, ttl: int)
    ensures First(KeysOf(MaintainAll(s, Tag(c.second, keys), now, ttl)), Cursor(!c.second, None))
      == Second(KeysOf(s), c)
  {
    hide List, MaintainAll, Tag;
    OtherBucketKept(s, c.second, keys, now, ttl);
  }

  // ----- Counters -----

  /** The number of rows a pass can delete. */
  function Rows(s: Store): nat {
    |s.jobs| + |s.deliveries|
  }

  function Size(s: Store): nat {
    Rows(s) + |s.intents| + |s.comments|
  }

  function Holders(jobs: map<nat, JobRow>): set<nat> {
    set k | k in jobs && jobs[k].Job? && jobs[k].reservations > 0
  }

  /** The number of jobs that hold budget reservations. */
  function Reserving(jobs: map<nat, JobRow>): nat {
    |Holders(jobs)|
  }

  lemma ReservingWithout(jobs: map<nat, JobRow>, k: nat)
    requires k in jobs
    ensures Reserving(jobs - {k}) == Reserving(jobs) - Count(jobs[k].Job? && jobs[k].reservations > 0)
  {
    assert Holders(jobs - {k}) == Holders(jobs) - {k};
    SetWithout(Holders(jobs), k);
  }

  lemma MapWithout<K, V>(m: map<K, V>, k: K)
    ensures |m - {k}| == |m| - Count(k in m)
  {
    var rest := m - {k};
    assert rest.Keys == m.Keys - {k};
    SetWithout(m.Keys, k);
    assert |rest| == |rest.Keys| && |m| == |m.Keys|;
  }

  lemma SetWithout<K>(a: set<K>, k: K)
    ensures |a - {k}| == |a| - Count(k in a)
  {
    if k in a {
      assert a == (a - {k}) + {k};
    } else {
      assert a - {k} == a;
    }
  }

  /** One record is pinned or deleted, the counter of deletions counts every row, intent and key gone, and the
      counter of releases every job gone that held reservations. */
  predicate Balances(t: Tally, t': Tally, s: Store, s': Store, records: nat) {
    && t'.pinned - t.pinned + (Rows(s) - Rows(s')) == records
    && t'.deleted - t.deleted == Size(s) - Size(s')
    && t'.released - t.released == Reserving(s.jobs) - Reserving(s'.jobs)
    && t'.scanned == t.scanned
  }

  lemma MarkersWithout(intents: map<Marker, IntentRow>, id: string)
    ensures var a, b := Marker(false, id), Marker(true, id);
      |intents - {a, b}| == |intents| - Count(a in intents) - Count(b in intents)
  {
    var a, b := Marker(false, id), Marker(true, id);
    MapWithout(intents, a);
    MapWithout(intents - {a}, b);
    assert intents - {a} - {b} == intents - {a, b};
  }

  lemma JobBalances(t: Tally, s: Store, k: nat, now: int, ttl: int)
    requires k in s.jobs
    ensures Balances(t, TallyJob(t, s, s.jobs[k], now, ttl), s, MaintainJob(s, k, s.jobs[k], now, ttl), 1)
  {
    hide Active, IntentPins, ClearPR, Reserving;
    var row := s.jobs[k];
    if Expired(row, now, ttl) && !Pinned(s.intents, row.id) {
      ReclaimBalances(t, s, k, row, MaintainJob(s, k, row, now, ttl), TallyJob(t, s, row, now, ttl));
    }
  }

  lemma ReclaimBalances(t: Tally, s: Store, k: nat, row: JobRow, s': Store, t': Tally)
    requires k in s.jobs && row.Job?
    requires s'.jobs == s.jobs - {k} && s'.deliveries == s.deliveries
    requires s'.intents == s.intents - {Marker(false, row.id), Marker(true, row.id)}
    requires var key := CommentKey(row.pr.repo, row.commentId);
      && s'.comments == (if row.commentId > 0 then s.comments - {key} else s.comments)
      && t'.deleted == t.deleted + 1 + Count(row.commentId > 0 && key in s.comments)
                       + Count(Marker(false, row.id) in s.intents) + Count(Marker(true, row.id) in s.intents)
      && t'.pinned == t.pinned && t'.scanned == t.scanned
      && t'.released == t.released + Count(s.jobs[k].Job? && s.jobs[k].reservations > 0)
    ensures Balances(t, t', s, s', 1)
  {
    ReservingWithout(s.jobs, k);
    hide Reserving;
    MapWithout(s.jobs, k);
    MarkersWithout(s.intents, row.id);
    SetWithout(s.comments, CommentKey(row.pr.repo, row.commentId));
  }

  lemma OneBalances(t: Tally, s: Store, r: Record, now: int, ttl: int)
    requires IsRecord(KeysOf(s), r)
    ensures Balances(t, TallyOne(t, s, r, now, ttl), s, MaintainOne(s, r, now, ttl), 1)
  {
    hide MaintainJob, TallyJob, Reserving;
    if r.second {
      MapWithout(s.deliveries, r.key);
    } else {
      JobBalances(t, s, r.key, now, ttl);
    }
  }

  /** Over one call: the records scanned are those pinned and those gone from the two buckets, and the
      deletions counted are everything gone from the store. */
  lemma {:induction false} CallBalances(t: Tally, s: Store, rs: seq<Record>, now: int, ttl: int)
    requires forall i :: 0 <= i < |rs| ==> IsRecord(KeysOf(s), rs[i])
    requires forall i, j :: 0 <= i < j < |rs| ==> rs[i] != rs[j]
    ensures Balances(t, TallyAll(t, s, rs, now, ttl), s, MaintainAll(s, rs, now, ttl), |rs|)
  {
    hide MaintainOne, TallyOne, KeysOf, IsRecord, Rows, Size, Reserving;
    if rs != [] {
      var front, r := rs[..|rs| - 1], rs[|rs| - 1];
      CallBalances(t, s, front, now, ttl);
      AllKeepsOthers(s, front, r, now, ttl);
      OneBalances(TallyAll(t, s, front, now, ttl), MaintainAll(s, front, now, ttl), r, now, ttl);
    }
  }

  lemma PassBalances(w: World, c: Call)
    ensures var rs := Examined(KeysOf(w.store), w.cursor, c.limit); var after := Pass(w, c).store;
      var t := TallyAll(Tally(|rs|, 0, 0, 0), w.store, rs, c.now, c.ttl);
      && t.scanned == |rs| == t.pinned + (Rows(w.store) - Rows(after))
      && t.deleted == Size(w.store) - Size(after)
      && t.released == Reserving(w.store.jobs) - Reserving(after.jobs)
  {
    hide Examined, After, MaintainAll, TallyAll, Rows, Size, Reserving;
    ExaminedOnce(KeysOf(w.store), w.cursor, c.limit);
    var rs := Examined(KeysOf(w.store), w.cursor, c.limit);
    CallBalances(Tally(|rs|, 0, 0, 0), w.store, rs, c.now, c.ttl);
  }

  lemma {:induction false} TallyConcat(t: Tally, s: Store, xs: seq<Record>, ys: seq<Record>, now: int, ttl: int)
    ensures TallyAll(t, s, xs + ys, now, ttl)
         == TallyAll(TallyAll(t, s, xs, now, ttl), MaintainAll(s, xs, now, ttl), ys, now, ttl)
  {
    hide TallyOne, MaintainOne;
    if ys == [] {
      assert xs + ys == xs;
    } else {
      var front := ys[..|ys| - 1];
      TallyConcat(t, s, xs, front, now, ttl);
      MaintainConcat(s, xs, front, now, ttl);
      assert (xs + ys)[..|xs + ys| - 1] == xs + front;
    }
  }

  /** The count of scanned records is kept apart. */
  lemma {:induction false} TallyScanned(t: Tally, n: nat, s: Store, rs: seq<Record>, now: int, ttl: int)
    ensures TallyAll(t.(scanned := n), s, rs, now, ttl) == TallyAll(t, s, rs, now, ttl).(scanned := n)
  {
    hide MaintainOne, Expired, Pinned, ReceiptExpired;
    if rs != [] {
      TallyScanned(t, n, s, rs[..|rs| - 1], now, ttl);
    }
  }

  lemma OneMore(t: Tally, s: Store, rs: seq<Record>, r: Record, now: int, ttl: int)
    ensures MaintainAll(s, rs + [r], now, ttl) == MaintainOne(MaintainAll(s, rs, now, ttl), r, now, ttl)
    ensures TallyAll(t, s, rs + [r], now, ttl)
         == TallyOne(TallyAll(t, s, rs, now, ttl), MaintainAll(s, rs, now, ttl), r, now, ttl)
  {
    hide MaintainOne, TallyOne;
    assert (rs + [r])[..|rs|] == rs;
  }

  /** Counting goes on from one bucket to the next. */
  lemma TallyMore(s: Store, xs: seq<Record>, ys: seq<Record>, now: int, ttl: int)
    ensures var t := TallyAll(Tally(|xs|, 0, 0, 0), s, xs, now, ttl);
      && TallyAll(t.(scanned := |xs| + |ys|), MaintainAll(s, xs, now, ttl), ys, now, ttl)
         == TallyAll(Tally(|xs + ys|, 0, 0, 0), s, xs + ys, now, ttl)
      && TallyAll(Tally(|xs + ys|, 0, 0, 0), s, xs + ys, now, ttl).scanned == |xs + ys|
      && t.scanned == |xs|
  {
    hide TallyAll, MaintainAll;
    var zero := Tally(0, 0, 0, 0);
    TallyScanned(zero, |xs|, s, xs, now, ttl);
    TallyScanned(zero, |xs + ys|, s, xs, now, ttl);
    TallyScanned(zero, |xs + ys|, s, xs + ys, now, ttl);
    TallyConcat(Tally(|xs + ys|, 0, 0, 0), s, xs, ys, now, ttl);
  }

  // ----- Intents that are being superseded -----

  /** An intent whose edit may still be outstanding: publication.go also leaves "superseding" behind. */
  predicate Unfinished(row: IntentRow) {
    InFlight(row) || (row.Intent? && row.status.Superseding?)
  }

  predicate HoldsUnfinished(intents: map<Marker, IntentRow>, id: string) {
    exists m :: m in {Marker(false, id), Marker(true, id)} && m in intents && Unfinished(intents[m])
  }

  predicate Supersedes(intents: map<Marker, IntentRow>, m: Marker) {
    m in intents && intents[m].Intent? && intents[m].status.Superseding?
  }

  /** A job with an unfinished intent is kept, unless it is expired, no intent of its own is in flight and one
      is being superseded: that status does not pin, and the intent is deleted with the job. */
  lemma UnfinishedIntentLostIff(s: Store, k: nat, now: int, ttl: int)
    requires k in s.jobs && s.jobs[k].Job? && HoldsUnfinished(s.intents, s.jobs[k].id)
    ensures var id := s.jobs[k].id;
      k !in MaintainJob(s, k, s.jobs[k], now, ttl).jobs
      <==> Expired(s.jobs[k], now, ttl) && !Pinned(s.intents, id)
           && (Supersedes(s.intents, Marker(false, id)) || Supersedes(s.intents, Marker(true, id)))
  {
    hide Expired;
    var id := s.jobs[k].id;
    var m :| m in {Marker(false, id), Marker(true, id)} && m in s.intents && Unfinished(s.intents[m]);
    JobDeletedIff(s, k, now, ttl);
    assert !Pinned(s.intents, id) ==> Supersedes(s.intents, m);
  }

  /** publication.go: the save of the superseded text, before the edit that writes it. */
  function SaveSuperseding(s: Store, id: string, body: string): Store {
    s.(intents := s.intents[Marker(false, id) := Intent(Superseding, body)])
  }

  /** store.go, RecoverJobs, on a running review job whose intent has a body: after a restart it waits again. */
  function RecoverReview(s: Store, k: nat): Store {
    if k in s.jobs && s.jobs[k].Job? && s.jobs[k].status.Running?
      then s.(jobs := s.jobs[k := s.jobs[k].(status := Queued)]) else s
  }

  /** store.go, ClaimNextJob. */
  function ClaimJob(s: Store, k: nat): Store {
    if k in s.jobs && s.jobs[k].Job? && s.jobs[k].status.Queued?
      then s.(jobs := s.jobs[k := s.jobs[k].(status := Running)]) else s
  }

  /** jobs.go, ExecuteJob, on an explicit command whose author may no longer write: the job fails, and its
      intents are not looked at. */
  function DenyJob(s: Store, k: nat, now: int): Store {
    if k in s.jobs && s.jobs[k].Job?
    then s.(jobs := s.jobs[k := s.jobs[k].(status := Failed, finishedAt := Some(now))]) else s
  }

  /** A crash right after the save, a restart, and a denied reauthorization. */
  function CrashedAndDenied(s: Store, k: nat, body: string, now: int): Store
    requires k in s.jobs && s.jobs[k].Job?
  {
    DenyJob(ClaimJob(RecoverReview(SaveSuperseding(s, s.jobs[k].id, body), k), k), k, now)
  }

  /** This run leaves a terminal job with an intent being superseded, and once it is expired the job and
      the intent are gone after one sweep of the store. */
  lemma {:induction false} SupersedingIntentLost(s: Store, k: nat, body: string, now: int, cursor: Cursor,
      calls: seq<Call>, limit: nat)
    requires k in s.jobs && Readable(s.jobs[k]) && s.jobs[k].status.Running?
    requires !IntentPins(s.intents, Marker(true, s.jobs[k].id))
    requires limit > 0 && |calls| >= (|s.jobs.Keys| + |s.deliveries.Keys| + limit - 1) / limit + 1
    requires forall i :: 0 <= i < |calls| ==> calls[i].limit == limit && calls[i].now - now >= calls[i].ttl
    ensures var m := Marker(false, s.jobs[k].id); var left := CrashedAndDenied(s, k, body, now);
      && k in left.jobs && left.jobs[k] == s.jobs[k].(status := Failed, finishedAt := Some(now))
      && m in left.intents && left.intents[m] == Intent(Superseding, body)
      && k !in Passes(World(left, cursor), calls).store.jobs
      && m !in Passes(World(left, cursor), calls).store.intents
  {
    hide Passes, Active;
    var left := CrashedAndDenied(s, k, body, now);
    assert left.jobs.Keys == s.jobs.Keys && left.deliveries == s.deliveries;
    assert Readable(left.jobs[k]) && !Active(left.jobs[k].status) by {
      StatusesActive();
    }
    assert !Pinned(left.intents, left.jobs[k].id);
    ReclaimedInTime(World(left, cursor), calls, limit, k);
    PassesTakeJobIff(World(left, cursor), calls, k);
  }

  lemma StatusesActive()
    ensures !Active(Failed)
  {
  }

  // ----- The code -----

  lemma Dropped(before: map<Marker, IntentRow>, cleared: map<Marker, IntentRow>, a: Marker, b: Marker)
    requires cleared.Keys == before.Keys && forall m :: m in before && m != a && m != b ==> cleared[m] == before[m]
    ensures cleared - {a} - {b} == before - {a, b}
  {
  }

  lemma RowDropped(before: map<nat, JobRow>, after: map<nat, JobRow>, k: nat)
    requires after.Keys == before.Keys && forall j :: j in before && j != k ==> after[j] == before[j]
    ensures after - {k} == before - {k}
  {
  }

  const HOUR := 3_600_000_000_000

  class BoltStore {
    const deliveryTTL: int
    var open: bool
    var jobs: map<nat, JobRow>
    var deliveries: map<nat, Receipt>
    var intents: map<Marker, IntentRow>
    var comments: set<CommentKey>
    var prs: map<PRKey, PRRow>
    var cursor: Cursor

    function Contents(): Store
      reads this
    {
      Store(jobs, deliveries, intents, comments, prs)
    }

    constructor (deliveryTTL: int, s: Store)
      ensures this.deliveryTTL == deliveryTTL && Contents() == s && open && cursor == Cursor(false, None)
    {
      this.deliveryTTL := deliveryTTL;
      jobs, deliveries, intents, comments, prs := s.jobs, s.deliveries, s.intents, s.comments, s.prs;
      open := true;
      cursor := Cursor(false, None);
    }

    method MaintainJobRecord(k: nat, j: JobRow, now: int, ttl: int, t: Tally) returns (res: Tally)
      requires k in jobs && jobs[k] == j
      modifies this`jobs, this`intents, this`comments, this`prs
      ensures Contents() == MaintainJob(old(Contents()), k, j, now, ttl)
        && res == TallyJob(t, old(Contents()), j, now, ttl)
      ensures k !in jobs <==> Spent(old(Contents()), k, Call(now, ttl, 1))
    {
      DueIsSpent(Contents(), k, Call(now, ttl, 1));
      JobDeletedIff(Contents(), k, now, ttl);
      hide Spent;
      if j.BadJob? || j.id == "" || !j.dated {
        return t.(pinned := t.pinned + 1);
      }
      if j.status.Queued? || j.status.Running? || j.status.Unsettled? || j.status.NeedsAttention? {
        return t.(pinned := t.pinned + 1);
      }
      if j.finishedAt.None? || now - j.finishedAt.value < ttl {
        return t.(pinned := t.pinned + 1);
      }
      ClearReferences(j.pr, j.id);
      var markers := [Marker(false, j.id), Marker(true, j.id)];
      var i := 0;
      while i < 2
        invariant 0 <= i <= 2 && forall n :: 0 <= n < i ==> !IntentPins(intents, markers[n])
        invariant Contents() == old(Contents()).(prs := ClearPR(old(prs), j.pr, j.id))
      {
        if markers[i] in intents && InFlight(intents[markers[i]]) {
          assert IntentPins(intents, markers[i]);
          return t.(pinned := t.pinned + 1);
        }
        i := i + 1;
      }
      assert !IntentPins(intents, markers[0]) && !IntentPins(intents, markers[1]);
      res := Reclaim(k, j, t);
    }

    /** Releases, clears and deletes everything of an expired job. */
    method Reclaim(k: nat, j: JobRow, t: Tally) returns (res: Tally)
      requires k in jobs && jobs[k] == j && j.Job?
      modifies this`jobs, this`intents, this`comments
      ensures jobs == old(jobs) - {k}
      ensures comments == if j.commentId > 0 then old(comments) - {CommentKey(j.pr.repo, j.commentId)}
        else old(comments)
      ensures intents == old(intents) - {Marker(false, j.id), Marker(true, j.id)}
      ensures res == t.(
                released := t.released + Count(j.reservations > 0),
                deleted := t.deleted + 1 + Count(j.commentId > 0 && CommentKey(j.pr.repo, j.commentId) in old(comments))
                           + Count(Marker(false, j.id) in old(intents)) + Count(Marker(true, j.id) in old(intents)))
    {
      var released := 0;
      if j.reservations > 0 {
        jobs := jobs[k := j.(reservations := 0)];
        released := 1;
      }
      ClearBody(Marker(false, j.id));
      ClearBody(Marker(true, j.id));
      Dropped(old(intents), intents, Marker(false, j.id), Marker(true, j.id));
      RowDropped(old(jobs), jobs, k);
      jobs := jobs - {k};
      var comment := DeleteComment(j);
      var output := DeleteIntent(Marker(false, j.id));
      var status := DeleteIntent(Marker(true, j.id));
      res := t.(released := t.released + released, deleted := t.deleted + 1 + comment + output + status);
    }

    /** The uniqueness key of the comment that asked for the job. */
    method DeleteComment(j: JobRow) returns (deleted: nat)
      requires j.Job?
      modifies this`comments
      ensures comments == if j.commentId > 0 then old(comments) - {CommentKey(j.pr.repo, j.commentId)}
        else old(comments)
      ensures deleted == Count(j.commentId > 0 && CommentKey(j.pr.repo, j.commentId) in old(comments))
    {
      deleted := 0;
      if j.commentId > 0 {
        var key := CommentKey(j.pr.repo, j.commentId);
        if key in comments {
          comments := comments - {key};
          deleted := 1;
        }
      }
    }

    method ClearReferences(pr: PRKey, id: string)
      modifies this`prs
      ensures prs == ClearPR(old(prs), pr, id)
    {
      if pr in prs && prs[pr].PRState? {
        var state := prs[pr];
        var modified := false;
        if state.pendingAuto == id {
          state := state.(pendingAuto := "", reservedSuccessor := false);
          modified := true;
        }
        if state.active == id {
          state := state.(active := "");
          modified := true;
        }
        if modified {
          prs := prs[pr := state];
        }
      }
    }

    /** The body of a completed intent is emptied. */
    method ClearBody(m: Marker)
      modifies this`intents
      ensures intents.Keys == old(intents).Keys
      ensures forall n :: n in intents && n != m ==> intents[n] == old(intents)[n]
    {
      if m in intents && intents[m].Intent? && intents[m].status == COMPLETED && intents[m].body != "" {
        intents := intents[m := intents[m].(body := "")];
      }
    }

    method DeleteIntent(m: Marker) returns (deleted: nat)
      modifies this`intents
      ensures intents == old(intents) - {m}
      ensures deleted == Count(m in old(intents))
    {
      deleted := 0;
      if m in intents {
        intents := intents - {m};
        deleted := 1;
      }
    }

    method FindJob(id: string) returns (r: Option<JobRow>)
      ensures r == Lookup(jobs, 0, id)
    {
      var from := 0;
      while Seek(jobs.Keys, from).Some?
        invariant Lookup(jobs, from, id) == Lookup(jobs, 0, id)
        decreases |Above(jobs.Keys, from)|
      {
        var k := Seek(jobs.Keys, from).value;
        AboveNext(jobs.Keys, from, k);
        if jobs[k].Job? && jobs[k].id == id {
          return Some(jobs[k]);
        }
        from := k + 1;
      }
      r := None;
    }

    method MaintainDeliveryRecord(k: nat, d: Receipt, now: int, ttl: int, t: Tally) returns (res: Tally)
      modifies this`deliveries
      ensures Contents() == MaintainReceipt(old(Contents()), k, d, now, ttl)
      ensures res == TallyReceipt(t, old(Contents()), d, now, ttl)
    {
      hide Lookup;
      if d.BadReceipt? || !d.dated || now - d.receivedAt < ttl || d.jobIds == [] {
        return t.(pinned := t.pinned + 1);
      }
      var i := 0;
      while i < |d.jobIds|
        invariant 0 <= i <= |d.jobIds| && !NamesActive(jobs, d.jobIds[..i]) && deliveries == old(deliveries)
      {
        var found := FindJob(d.jobIds[i]);
        assert d.jobIds[..i + 1][i] == d.jobIds[i] && d.jobIds[..i + 1][..i] == d.jobIds[..i];
        if found.Some? && Active(found.value.status) {
          assert NamesActive(jobs, d.jobIds);
          return t.(pinned := t.pinned + 1);
        }
        i := i + 1;
      }
      assert d.jobIds[..i] == d.jobIds;
      deliveries := deliveries - {k};
      res := t.(deleted := t.deleted + 1);
    }

    /** Keys of one bucket from a key on, at most `room` of them, and the key after the last. */
    method Scan(second: bool, from: nat, room: nat) returns (items: seq<nat>, next: Option<nat>)
      ensures var list := List(Bucket(KeysOf(Contents()), second), from);
        && items == Take(list, room) && next == if |list| > room then Some(list[room]) else None
    {
      hide List, Seek, Take;
      var keys := if second then deliveries.Keys else jobs.Keys;
      assert keys == Bucket(KeysOf(Contents()), second);
      items := [];
      next := Seek(keys, from);
      var at: nat := from;
      while next.Some? && |items| < room
        invariant List(keys, from) == items + List(keys, at) && next == Seek(keys, at) && |items| <= room
        decreases room - |items|
      {
        ScanNext(items, keys, at, next.value);
        items := items + [next.value];
        at := next.value + 1;
        next := Seek(keys, at);
      }
      ScanEnds(List(keys, from), items, keys, at, room);
    }

    /** The records scanned, in order; their rows are those read by the scan. */
    method MaintainItems(second: bool, items: seq<nat>, now: int, ttl: int, t: Tally) returns (res: Tally)
      requires forall i, j :: 0 <= i < j < |items| ==> items[i] != items[j]
      requires forall i :: 0 <= i < |items| ==> items[i] in Bucket(KeysOf(Contents()), second)
      modifies this
      ensures Contents() == MaintainAll(old(Contents()), Tag(second, items), now, ttl)
      ensures res == TallyAll(t, old(Contents()), Tag(second, items), now, ttl)
      ensures cursor == old(cursor) && open == old(open)
    {
      hide MaintainJob, MaintainReceipt, TallyJob, TallyReceipt, MaintainAll, TallyAll, RefsOk;
      MaintainNothing(Contents(), now, ttl);
      var seen := Contents();
      res := t;
      var i := 0;
      assert items[..0] == [];
      while i < |items|
        invariant 0 <= i <= |items| && Contents() == MaintainAll(seen, Tag(second, items[..i]), now, ttl)
        invariant res == TallyAll(t, seen, Tag(second, items[..i]), now, ttl)
        invariant cursor == old(cursor) && open == old(open)
      {
        var k := items[i];
        var done := Tag(second, items[..i]);
        AllKeeps(seen, done, now, ttl);
        AllKeepsOthers(seen, done, Record(second, k), now, ttl);
        assert Tag(second, items[..i + 1]) == done + [Record(second, k)];
        OneMore(t, seen, done, Record(second, k), now, ttl);
        if second {
          res := MaintainDeliveryRecord(k, seen.deliveries[k], now, ttl, res);
        } else {
          res := MaintainJobRecord(k, seen.jobs[k], now, ttl, res);
        }
        i := i + 1;
      }
      assert items[..i] == items;
    }

    /** One bucket, from the cursor on; `more` is whether keys of it are left. */
    method MaintainBucket(room: nat, now: int, ttl: int, t: Tally) returns (res: Tally, items: seq<nat>, more: bool)
      modifies this
      ensures var list := First(KeysOf(old(Contents())), old(cursor));
        && items == Take(list, room) && more == (|list| > room)
        && cursor == if more then Cursor(old(cursor).second, Some(list[room])) else Cursor(!old(cursor).second, None)
      ensures Contents() == MaintainAll(old(Contents()), Tag(old(cursor).second, items), now, ttl)
      ensures res == TallyAll(t.(scanned := t.scanned + |items|), old(Contents()), Tag(old(cursor).second, items),
        now, ttl)
      ensures open == old(open)
    {
      hide List, MaintainAll, TallyAll, Tag;
      var second := cursor.second;
      var next: Option<nat>;
      items, next := Scan(second, From(cursor), room);
      ItemsDistinct(Bucket(KeysOf(Contents()), second), From(cursor), room);
      res := MaintainItems(second, items, now, ttl, t.(scanned := t.scanned + |items|));
      more := next.Some?;
      cursor := if more then Cursor(second, next) else Cursor(!second, None);
    }

    method MaintainInTx(now: int, ttl: int, limit: nat) returns (res: Tally, examined: seq<Record>)
      requires limit > 0
      modifies this
      ensures World(Contents(), cursor) == Pass(World(old(Contents()), old(cursor)), Call(now, ttl, limit))
      ensures examined == Examined(KeysOf(old(Contents())), old(cursor), limit)
      ensures res == TallyAll(Tally(|examined|, 0, 0, 0), old(Contents()), examined, now, ttl)
      ensures open == old(open)
    {
      hide List, MaintainAll, TallyAll, Examined, After, Tag, KeysOf, Bucket;
      ghost var s, c := Contents(), cursor;
      CallParts(KeysOf(s), c, limit);
      ghost var a, b := First(KeysOf(s), c), Second(KeysOf(s), c);
      MaintainNothing(s, now, ttl);
      res, examined := Tally(0, 0, 0, 0), [];
      var pass, start := 0, cursor.second;
      while pass < 2 && res.scanned < limit
        invariant 0 <= pass <= 2 && res == TallyAll(Tally(|examined|, 0, 0, 0), s, examined, now, ttl)
          && open == old(open)
        invariant res.scanned == |examined|
        invariant Contents() == MaintainAll(s, examined, now, ttl)
        invariant pass == 0 ==> cursor == c && examined == []
        invariant pass == 1 ==> cursor == Cursor(!c.second, None) && examined == Tag(c.second, a) && |a| <= limit
        invariant pass == 2 ==>
                    && cursor == Cursor(c.second, None) && examined == Tag(c.second, a) + Tag(!c.second, b)
                    && |a| < limit && |a| + |b| <= limit
      {
        ghost var before := examined;
        if pass == 1 {
          SecondKept(s, c, a, now, ttl);
        }
        assert First(KeysOf(Contents()), cursor) == if pass == 0 then a else b;
        ghost var second := cursor.second;
        var items, more;
        res, items, more := MaintainBucket(limit - res.scanned, now, ttl, res);
        examined := examined + Tag(if pass == 0 then start else !start, items);
        MaintainConcat(s, before, Tag(second, items), now, ttl);
        TallyMore(s, before, Tag(second, items), now, ttl);
        if more {
          return;
        }
        pass := pass + 1;
      }
    }

    /** One bounded pass; None if the store is closed. A limit or retention time that is not positive means
        the default. */
    method MaintainTerminalRecords(now: int, limit: int) returns (r: Option<Tally>, examined: seq<Record>)
      modifies this
      ensures r.Some? <==> old(open)
      ensures r.None? ==> Contents() == old(Contents()) && cursor == old(cursor)
      ensures r.Some? ==>
                && var ttl := if deliveryTTL <= 0 then 168 * HOUR else deliveryTTL;
                   var c := Call(now, ttl, if limit <= 0 then 128 else limit);
                && World(Contents(), cursor) == Pass(World(old(Contents()), old(cursor)), c)
                && examined == Examined(KeysOf(old(Contents())), old(cursor), c.limit)
                && r.value == TallyAll(Tally(|examined|, 0, 0, 0), old(Contents()), examined, c.now, c.ttl)
                && |examined| <= c.limit
                && (forall k :: k in old(jobs) ==>
                      (k !in jobs <==> Record(false, k) in examined && Spent(old(Contents()), k, c)))
                && (forall k :: Record(true, k) in examined && SpentReceipt(old(Contents()), k, c) ==> k !in deliveries)
    {
      hide MaintainAll, TallyAll, Examined, After, Spent, SpentReceipt, Taken;
      var most := if limit <= 0 then 128 else limit;
      var ttl := if deliveryTTL <= 0 then 168 * HOUR else deliveryTTL;
      if !open {
        return None, [];
      }
      ExaminesNext(KeysOf(Contents()), cursor, most);
      var res: Tally;
      ghost var before, c := World(Contents(), cursor), Call(now, ttl, most);
      res, examined := MaintainInTx(now, ttl, most);
      forall k | k in before.store.jobs
        ensures k !in jobs <==> Record(false, k) in examined && Spent(before.store, k, c)
      {
        PassTakesSpent(before, c, k);
      }
      forall k | Record(true, k) in examined && SpentReceipt(before.store, k, c)
        ensures k !in deliveries
      {
        CallTakesReceipt(before.store, examined, k, c);
      }
      r := Some(res);
    }
  }
}
