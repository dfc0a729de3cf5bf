/** What every step of the protocol keeps, and what follows for whole runs. */
module Safety {
  import opened Records
  import opened Ingest
  import opened Quota
  import opened Protocol

  /* ---------- the invariant ---------- */

  predicate RowOk(r: Recording, issued: seq<real>) {
    && (r.requestId.Some? ==>
          && !HasTranscript(r)
          && r.pathCurrent
          && r.requestId.value < |issued|
          && r.runnerStartedAt == Some(issued[r.requestId.value]))
    && (r.requestId.None? ==> r.runnerStartedAt.None?)
    && (r.status in {Pending, Transcribing, Diarizing, QuotaBlocked, Failed} ==> !HasTranscript(r))
    && (r.status in {Summarizing, Enriching, Done} ==> HasTranscript(r))
    && (r.summary.Some? ==> HasTranscript(r))
    && (r.duplicateOf.Some? ==> r.status in {Duplicate, Missing} && !HasTranscript(r) && r.requestId.None?)
    && (r.status == Duplicate ==> r.duplicateOf.Some? && r.pathCurrent)
  }

  predicate Billed(row: LedgerRow, id: Id) {
    row.recording == Some(id) && row.stage == TranscribeStage && row.succeeded
  }

  /** How many successful transcriptions of this recording are on the ledger. */
  function Bills(ledger: seq<LedgerRow>, id: Id): nat {
    if ledger == [] then 0
    else Bills(ledger[..|ledger| - 1], id) + if Billed(ledger[|ledger| - 1], id) then 1 else 0
  }

  function BillsDue(r: Recording): nat {
    if HasTranscript(r) then 1 else 0
  }

  predicate RowsOk(db: Db) {
    forall id | id in db.recordings :: id < db.nextId && RowOk(db.recordings[id], db.issued)
  }

  predicate PointsAtRoot(recs: Table, r: Recording) {
    r.duplicateOf.Some? ==>
      && r.duplicateOf.value in recs
      && recs[r.duplicateOf.value].duplicateOf.None?
      && recs[r.duplicateOf.value].workspace == r.workspace
  }

  predicate Forest(recs: Table) {
    forall id | id in recs :: PointsAtRoot(recs, recs[id])
  }

  predicate OnePerPath(recs: Table) {
    forall a, b | a in recs && b in recs && recs[a].pathCurrent && recs[b].pathCurrent
          && recs[a].path == recs[b].path :: a == b
  }

  predicate LedgerLinks(recs: Table, ledger: seq<LedgerRow>) {
    forall k | 0 <= k < |ledger| :: ledger[k].recording.Some? ==> ledger[k].recording.value in recs
  }

  ghost predicate BilledOnce(db: Db) {
    forall id | id in db.recordings :: Bills(db.ledger, id) == BillsDue(db.recordings[id])
  }

  ghost predicate DbInv(db: Db) {
    && RowsOk(db)
    && Forest(db.recordings)
    && OnePerPath(db.recordings)
    && LedgerLinks(db.recordings, db.ledger)
    && BilledOnce(db)
  }

  /** Row `b` is a later version of row `a`, where the ids below `n` were already issued: content and
      tenancy never change, a stored transcript is never replaced, and an issued request id is never
      handed back to a row that has lost it. */
  predicate Follows(a: Recording, b: Recording, n: nat) {
    && a.workspace == b.workspace
    && a.source == b.source
    && (a.contentHash.Some? ==> b.contentHash == a.contentHash)
    && (HasTranscript(a) ==> b.segments == a.segments && b.sttMeta == a.sttMeta)
    && (b.requestId.Some? && b.requestId.value < n ==>
          a.requestId == b.requestId && a.runnerStartedAt == b.runnerStartedAt)
  }

  /** `b` is a later database than `a`. A deleted row does not come back. */
  predicate Continues(a: Db, b: Db) {
    && a.nextId <= b.nextId
    && a.issued <= b.issued
    && (forall id | id in b.recordings && id < a.nextId ::
          id in a.recordings && Follows(a.recordings[id], b.recordings[id], |a.issued|))
  }

  predicate JobOk(db: Db, job: Job) {
    && job.recording < db.nextId
    && (job.recording in db.recordings ==> db.recordings[job.recording].workspace == job.workspace)
    && (job.Transcription? ==>
          && job.token < |db.issued|
          && job.base == db.issued[job.token]
          && job.limit == JobTimeout(job.declared))
    && (job.Summary? && job.recording in db.recordings ==> HasTranscript(db.recordings[job.recording]))
  }

  ghost predicate Inv(s: System) {
    DbInv(s.db) && forall w | w in s.jobs :: JobOk(s.db, s.jobs[w])
  }

  /* ---------- counting ---------- */

  lemma BillsOfAppend(ledger: seq<LedgerRow>, row: LedgerRow, id: Id)
    ensures Bills(ledger + [row], id) == Bills(ledger, id) + if Billed(row, id) then 1 else 0
  {
    assert (ledger + [row])[..|ledger|] == ledger;
  }

  lemma {:induction false} NoBillsBeforeExistence(recs: Table, ledger: seq<LedgerRow>, id: Id)
    requires LedgerLinks(recs, ledger) && id !in recs
    ensures Bills(ledger, id) == 0
  {
    if ledger != [] {
      NoBillsBeforeExistence(recs, ledger[..|ledger| - 1], id);
    }
  }

  lemma {:induction false} BillsOfUnlinked(ledger: seq<LedgerRow>, gone: Id, id: Id)
    requires id != gone
    ensures Bills(UnlinkedAll(ledger, gone), id) == Bills(ledger, id)
  {
    if ledger != [] {
      var n := |ledger| - 1;
      BillsOfUnlinked(ledger[..n], gone, id);
      assert UnlinkedAll(ledger, gone)[..n] == UnlinkedAll(ledger[..n], gone);
    }
  }

  lemma ContinuesTransitively(a: Db, b: Db, c: Db)
    requires Continues(a, b) && Continues(b, c)
    ensures Continues(a, c)
  {
    forall id | id in c.recordings && id < a.nextId
      ensures id in a.recordings && Follows(a.recordings[id], c.recordings[id], |a.issued|)
    {
      assert Follows(b.recordings[id], c.recordings[id], |b.issued|);
      assert Follows(a.recordings[id], b.recordings[id], |a.issued|);
    }
  }

  lemma JobCarriesOn(a: Db, b: Db, job: Job)
    requires Continues(a, b) && JobOk(a, job)
    ensures JobOk(b, job)
  {
  }

  /* ---------- one lemma for every update that keeps identity, links and transcripts ---------- */

  predicate SameFrame(a: Recording, b: Recording) {
    && a.duplicateOf == b.duplicateOf
    && a.path == b.path
    && a.pathCurrent == b.pathCurrent
    && HasTranscript(a) == HasTranscript(b)
  }

  /** An acceptable new version of one row, seen by itself. */
  predicate Revised(a: Recording, b: Recording, n: nat, issued: seq<real>) {
    SameFrame(a, b) && Follows(a, b, n) && RowOk(b, issued)
  }

  predicate Framed(a: Db, b: Db) {
    && a.recordings.Keys == b.recordings.Keys
    && a.nextId == b.nextId
    && a.issued <= b.issued
    && a.ledger == b.ledger
    && (forall id | id in b.recordings :: Revised(a.recordings[id], b.recordings[id], |a.issued|, b.issued))
  }

  lemma FramedKeeps(a: Db, b: Db)
    requires DbInv(a) && Framed(a, b)
    ensures DbInv(b) && Continues(a, b)
  {
    assert forall id | id in b.recordings :: PointsAtRoot(a.recordings, a.recordings[id]);
  }

  lemma RowKeeps(db: Db, id: Id, r: Recording, issued: seq<real>)
    requires DbInv(db) && id in db.recordings && db.issued <= issued
    requires Revised(db.recordings[id], r, |db.issued|, issued)
    ensures var db' := WithRow(db, id, r).(issued := issued);
            DbInv(db') && Continues(db, db')
  {
    FramedKeeps(db, WithRow(db, id, r).(issued := issued));
  }

  /** A ledger row that bills nobody changes nothing. */
  lemma LoggedKeeps(db: Db, row: LedgerRow)
    requires DbInv(db)
    requires row.recording.Some? ==> row.recording.value in db.recordings
    requires row.recording.None? || !row.succeeded || row.stage == EnrichStage
    ensures DbInv(Logged(db, row)) && Continues(db, Logged(db, row))
  {
    forall id | id in db.recordings
      ensures Bills(Logged(db, row).ledger, id) == Bills(db.ledger, id)
    {
      BillsOfAppend(db.ledger, row, id);
    }
  }

  /* ---------- each commit ---------- */

  lemma BeginRevises(db: Db, id: Id, quotas: Quotas, gateAt: real, started: real)
    requires id in db.recordings && Claimable(db.recordings[id]) && RowOk(db.recordings[id], db.issued)
    ensures var (db', job) := BeginJob(db, id, quotas, gateAt, started);
            && db'.recordings == db.recordings[id := db'.recordings[id]]
            && db.issued <= db'.issued
            && Revised(db.recordings[id], db'.recordings[id], |db.issued|, db'.issued)
  {
  }

  lemma BeginKeeps(db: Db, id: Id, quotas: Quotas, gateAt: real, started: real)
    requires DbInv(db) && id in db.recordings && Claimable(db.recordings[id])
    ensures var (db', job) := BeginJob(db, id, quotas, gateAt, started);
            && DbInv(db')
            && Continues(db, db')
            && (job.Some? ==> JobOk(db', job.value))
  {
    BeginRevises(db, id, quotas, gateAt, started);
    var db' := BeginJob(db, id, quotas, gateAt, started).0;
    RowKeeps(db, id, db'.recordings[id], db'.issued);
  }

  lemma StoreKeepsRows(db: Db, job: Job, reply: Reply)
    requires RowsOk(db) && Forest(db.recordings) && Holds(db, job) && reply.Transcribed?
    ensures var db' := StoreTranscript(db, job, reply);
            RowsOk(db') && Forest(db'.recordings) && Continues(db, db')
  {
    assert RowOk(db.recordings[job.recording], db.issued);
    forall id | id in db.recordings
      ensures PointsAtRoot(StoreTranscript(db, job, reply).recordings, StoreTranscript(db, job, reply).recordings[id])
    {
      assert PointsAtRoot(db.recordings, db.recordings[id]);
    }
  }

  /** The row that gains its transcript had no bill and now has one. */
  lemma StoreKeepsBooks(db: Db, job: Job, reply: Reply)
    requires LedgerLinks(db.recordings, db.ledger) && BilledOnce(db)
    requires Holds(db, job) && RowOk(db.recordings[job.recording], db.issued) && reply.Transcribed?
    ensures var db' := StoreTranscript(db, job, reply);
            LedgerLinks(db'.recordings, db'.ledger) && BilledOnce(db')
  {
    var db' := StoreTranscript(db, job, reply);
    forall id | id in db'.recordings
      ensures Bills(db'.ledger, id) == BillsDue(db'.recordings[id])
    {
      BillsOfAppend(db.ledger, db'.ledger[|db.ledger|], id);
    }
  }

  lemma StoreKeeps(db: Db, job: Job, reply: Reply)
    requires DbInv(db) && Holds(db, job) && reply.Transcribed?
    ensures var db' := StoreTranscript(db, job, reply);
            DbInv(db') && Continues(db, db')
  {
    StoreKeepsRows(db, job, reply);
    assert RowOk(db.recordings[job.recording], db.issued);
    StoreKeepsBooks(db, job, reply);
  }

  lemma FailKeeps(db: Db, job: Job, note: ErrorNote)
    requires DbInv(db) && Holds(db, job)
    ensures var db' := FailRequest(db, job, note);
            DbInv(db') && Continues(db, db')
  {
    var r := db.recordings[job.recording];
    assert RowOk(r, db.issued);
    var r' := r.(status := Failed, error := note, requestId := None, runnerStartedAt := None);
    RowKeeps(db, job.recording, r', db.issued);
    LoggedKeeps(WithRow(db, job.recording, r'), Entry(job, Some(job.recording), false, r.duration));
    ContinuesTransitively(db, WithRow(db, job.recording, r'), FailRequest(db, job, note));
  }

  lemma FinishKeeps(db: Db, job: Job, reply: Reply)
    requires DbInv(db) && job.Transcription? && JobOk(db, job)
    ensures var (db', next) := FinishJob(db, job, reply);
            && DbInv(db')
            && Continues(db, db')
            && (next.Some? ==> JobOk(db', next.value))
  {
    if Holds(db, job) {
      var r := db.recordings[job.recording];
      assert RowOk(r, db.issued);
      match reply {
        case Transcribed(_, _, _) => StoreKeeps(db, job, reply);
        case Unreachable => RowKeeps(db, job.recording, r.(status := Pending), db.issued);
        case TimedOut => FailKeeps(db, job, OtherError);
        case Broke => FailKeeps(db, job, OtherError);
        case Changed => FailKeeps(db, job, SourceChanged);
      }
    } else if reply.Transcribed? {
      if job.recording in db.recordings {
        LoggedKeeps(db, Entry(job, Some(job.recording), false, db.recordings[job.recording].duration));
      } else {
        LoggedKeeps(db, Entry(job, None, true, job.declared));
      }
    }
  }

  lemma EndSummaryKeeps(db: Db, job: Job, started: real, outcome: SummaryOutcome)
    requires DbInv(db) && job.Summary? && JobOk(db, job)
    ensures var db' := FinishSummary(db, job, started, outcome);
            DbInv(db') && Continues(db, db')
  {
    var db' := FinishSummary(db, job, started, outcome);
    if job.recording in db.recordings {
      var r := db.recordings[job.recording];
      assert RowOk(r, db.issued);
      var quiet := db'.(ledger := db.ledger);
      RowKeeps(db, job.recording, db'.recordings[job.recording], db.issued);
      assert quiet == WithRow(db, job.recording, db'.recordings[job.recording]).(issued := db.issued);
      if !outcome.NoEnricher? {
        var row := SummaryEntry(job, started, outcome, r.duration);
        LoggedKeeps(quiet, row);
        assert db' == Logged(quiet, row);
      }
    }
  }

  lemma RecoverFrames(db: Db, stale: set<Id>)
    requires RowsOk(db)
    ensures Framed(db, Recovered(db, stale))
  {
    forall id | id in db.recordings
      ensures Revised(db.recordings[id], Recovered(db, stale).recordings[id], |db.issued|, db.issued)
    {
      assert RowOk(db.recordings[id], db.issued);
    }
  }

  lemma RetryAllFrames(db: Db, scope: Option<Id>)
    requires RowsOk(db)
    ensures Framed(db, RetryAllFailed(db, scope))
  {
    forall id | id in db.recordings
      ensures Revised(db.recordings[id], RetryAllFailed(db, scope).recordings[id], |db.issued|, db.issued)
    {
      assert RowOk(db.recordings[id], db.issued);
    }
  }

  lemma RetryOneFrames(db: Db, id: Id)
    requires RowsOk(db)
    ensures Framed(db, RetryOneFailed(db, id))
  {
    assert forall i | i in db.recordings :: RowOk(db.recordings[i], db.issued);
  }

  lemma RequeueFrames(db: Db)
    requires RowsOk(db)
    ensures Framed(db, RequeueUnenriched(db))
  {
    forall id | id in db.recordings
      ensures Revised(db.recordings[id], RequeueUnenriched(db).recordings[id], |db.issued|, db.issued)
    {
      assert RowOk(db.recordings[id], db.issued);
    }
  }

  lemma ReleaseFrames(db: Db, quotas: Quotas, now: real)
    requires RowsOk(db)
    ensures Framed(db, ReleaseBlocked(db, quotas, now))
  {
    forall id | id in db.recordings
      ensures Revised(db.recordings[id], ReleaseBlocked(db, quotas, now).recordings[id], |db.issued|, db.issued)
    {
      assert RowOk(db.recordings[id], db.issued);
    }
  }

  lemma SweepFrames(db: Db, gone: set<Id>)
    requires RowsOk(db)
    ensures Framed(db, Swept(db, gone))
  {
    forall id | id in db.recordings
      ensures Revised(db.recordings[id], Swept(db, gone).recordings[id], |db.issued|, db.issued)
    {
      assert RowOk(db.recordings[id], db.issued);
    }
  }

  lemma BackfillFrames(db: Db, id: Id, hash: Hash)
    requires RowsOk(db)
    ensures Framed(db, Backfilled(db, id, hash))
  {
    assert forall i | i in db.recordings :: RowOk(db.recordings[i], db.issued);
  }

  lemma OrphanedOk(r: Recording, id: Id, issued: seq<real>)
    requires RowOk(r, issued)
    ensures RowOk(Orphaned(r, id), issued) && Follows(r, Orphaned(r, id), |issued|)
  {
  }

  lemma DeleteKeepsForest(recs: Table, id: Id, left: Table)
    requires Forest(recs)
    requires left == map i | i in recs && i != id :: Orphaned(recs[i], id)
    ensures Forest(left)
  {
    forall i | i in left
      ensures PointsAtRoot(left, left[i])
    {
      assert PointsAtRoot(recs, recs[i]);
    }
  }

  lemma DeleteKeepsBooks(db: Db, id: Id)
    requires LedgerLinks(db.recordings, db.ledger) && BilledOnce(db)
    ensures var db' := DeleteRecording(db, id);
            LedgerLinks(db'.recordings, db'.ledger) && BilledOnce(db')
  {
    var db' := DeleteRecording(db, id);
    assert db'.ledger == UnlinkedAll(db.ledger, id);
    forall i | i in db'.recordings
      ensures Bills(db'.ledger, i) == BillsDue(db'.recordings[i])
    {
      BillsOfUnlinked(db.ledger, id, i);
    }
  }

  lemma DeleteKeepsRows(db: Db, id: Id)
    requires RowsOk(db)
    ensures RowsOk(DeleteRecording(db, id)) && Continues(db, DeleteRecording(db, id))
  {
    var db' := DeleteRecording(db, id);
    forall i | i in db'.recordings
      ensures RowOk(db'.recordings[i], db.issued) && Follows(db.recordings[i], db'.recordings[i], |db.issued|)
    {
      OrphanedOk(db.recordings[i], id, db.issued);
    }
  }

  lemma DeleteKeepsPaths(recs: Table, id: Id, left: Table)
    requires OnePerPath(recs)
    requires left == map i | i in recs && i != id :: Orphaned(recs[i], id)
    ensures OnePerPath(left)
  {
  }

  lemma DeleteKeeps(db: Db, id: Id)
    requires DbInv(db)
    ensures DbInv(DeleteRecording(db, id)) && Continues(db, DeleteRecording(db, id))
  {
    DeleteKeepsRows(db, id);
    DeleteKeepsPaths(db.recordings, id, DeleteRecording(db, id).recordings);
    DeleteKeepsForest(db.recordings, id, DeleteRecording(db, id).recordings);
    DeleteKeepsBooks(db, id);
  }

  lemma ReplacedRowKeepsForest(recs: Table, id: Id, r: Recording)
    requires Forest(recs) && id in recs && r.duplicateOf == recs[id].duplicateOf && r.workspace == recs[id].workspace
    ensures Forest(recs[id := r])
  {
    forall i | i in recs
      ensures PointsAtRoot(recs[id := r], recs[id := r][i])
    {
      assert PointsAtRoot(recs, recs[i]);
    }
  }

  lemma ReplacedRowKeepsPaths(recs: Table, id: Id, r: Recording)
    requires OnePerPath(recs) && id in recs
    requires r.pathCurrent ==> forall i | i in recs && i != id :: !SitsAt(recs[i], r.path)
    ensures OnePerPath(recs[id := r])
  {
  }

  /** One row changes its path or lets go of it, and keeps its root and its transcript. */
  lemma ReplacedRowKeeps(db: Db, id: Id, r: Recording)
    requires DbInv(db) && id in db.recordings
    requires RowOk(r, db.issued) && Follows(db.recordings[id], r, |db.issued|)
    requires r.duplicateOf == db.recordings[id].duplicateOf && HasTranscript(r) == HasTranscript(db.recordings[id])
    requires r.pathCurrent ==> forall i | i in db.recordings && i != id :: !SitsAt(db.recordings[i], r.path)
    ensures DbInv(WithRow(db, id, r)) && Continues(db, WithRow(db, id, r))
  {
    ReplacedRowKeepsForest(db.recordings, id, r);
    ReplacedRowKeepsPaths(db.recordings, id, r);
    assert BilledOnce(WithRow(db, id, r));
  }

  lemma MoveKeeps(db: Db, id: Id, path: Path, file: File)
    requires DbInv(db) && id in db.recordings && db.recordings[id].duplicateOf.None?
    requires forall i | i in db.recordings :: !SitsAt(db.recordings[i], path)
    ensures var db' := WithRow(db, id, MovedTo(db.recordings[id], path, file));
            DbInv(db') && Continues(db, db')
  {
    var r := db.recordings[id];
    assert RowOk(r, db.issued);
    MovedRowIsOk(r, path, file, db.issued);
    ReplacedRowKeeps(db, id, MovedTo(r, path, file));
  }

  lemma MovedRowIsOk(r: Recording, path: Path, file: File, issued: seq<real>)
    requires RowOk(r, issued) && r.duplicateOf.None?
    ensures RowOk(MovedTo(r, path, file), issued) && Follows(r, MovedTo(r, path, file), |issued|)
  {
  }

  lemma NewRowKeepsForest(recs: Table, id: Id, r: Recording)
    requires Forest(recs) && id !in recs && PointsAtRoot(recs, r)
    ensures Forest(recs[id := r])
  {
    var grown := recs[id := r];
    forall i | i in grown
      ensures PointsAtRoot(grown, grown[i])
    {
      assert i != id ==> PointsAtRoot(recs, recs[i]);
    }
  }

  lemma NewRowKeeps(db: Db, r: Recording)
    requires DbInv(db) && RowOk(r, db.issued) && !HasTranscript(r) && r.requestId.None?
    requires PointsAtRoot(db.recordings, r)
    requires forall i | i in db.recordings :: !SitsAt(db.recordings[i], r.path)
    ensures var db' := WithRow(db, db.nextId, r).(nextId := db.nextId + 1);
            DbInv(db') && Continues(db, db')
  {
    assert db.nextId !in db.recordings;
    NewRowKeepsForest(db.recordings, db.nextId, r);
    NoBillsBeforeExistence(db.recordings, db.ledger, db.nextId);
  }

  /** Placing a file keeps the invariant, provided no current row holds the path. */
  lemma PlaceKeeps(db: Db, fs: FileSystem, path: Path, workspace: Id, source: Source)
    requires DbInv(db) && path in fs
    requires forall i | i in db.recordings :: !SitsAt(db.recordings[i], path)
    ensures var result := Place(db, fs, path, workspace, source);
            DbInv(result.db) && Continues(db, result.db)
  {
    var file := fs[path];
    var moved := FindMoved(db, fs, file.hash, workspace);
    if moved.Some? {
      MoveKeeps(db, moved.value, path, file);
    } else {
      var original := FindOriginal(db, fs, file, workspace);
      if original.Some? {
        assert RowOk(db.recordings[original.value], db.issued);
      }
      NewRowKeeps(db, Registered(path, file, workspace, source, original));
    }
  }

  lemma LetGoKeeps(db: Db, id: Id)
    requires DbInv(db) && id in db.recordings
    ensures var db' := WithRow(db, id, LetGo(db.recordings[id]));
            DbInv(db') && Continues(db, db')
  {
    assert RowOk(db.recordings[id], db.issued);
    ReplacedRowKeeps(db, id, LetGo(db.recordings[id]));
  }

  lemma RefreshedOk(r: Recording, file: File, issued: seq<real>)
    requires RowOk(r, issued) && r.pathCurrent && SameContent(r, file)
    ensures Revised(r, Refreshed(r, file), |issued|, issued)
  {
  }

  lemma ReplaceKeeps(db: Db, id: Id, fs: FileSystem, path: Path, workspace: Id, source: Source)
    requires DbInv(db) && path in fs && id in db.recordings && SitsAt(db.recordings[id], path)
    ensures var result := Place(WithRow(db, id, LetGo(db.recordings[id])), fs, path, workspace, source);
            DbInv(result.db) && Continues(db, result.db)
  {
    var db1 := WithRow(db, id, LetGo(db.recordings[id]));
    LetGoKeeps(db, id);
    PlaceKeeps(db1, fs, path, workspace, source);
    ContinuesTransitively(db, db1, Place(db1, fs, path, workspace, source).db);
  }

  lemma RefreshKeeps(db: Db, id: Id, file: File)
    requires DbInv(db) && id in db.recordings && db.recordings[id].pathCurrent && SameContent(db.recordings[id], file)
    ensures var db' := WithRow(db, id, Refreshed(db.recordings[id], file));
            DbInv(db') && Continues(db, db')
  {
    RefreshedOk(db.recordings[id], file, db.issued);
    RowKeeps(db, id, Refreshed(db.recordings[id], file), db.issued);
  }

  lemma RevisitKeeps(db: Db, id: Id, fs: FileSystem, path: Path, workspace: Id, source: Source, verifyExisting: bool)
    requires DbInv(db) && path in fs && id in db.recordings && SitsAt(db.recordings[id], path)
    ensures var result := Revisit(db, id, fs, path, workspace, source, verifyExisting);
            result.Ingested? ==> DbInv(result.db) && Continues(db, result.db)
  {
    var result := Revisit(db, id, fs, path, workspace, source, verifyExisting);
    if result.Refused? || result.db == db {
    } else if SameContent(db.recordings[id], fs[path]) {
      RefreshKeeps(db, id, fs[path]);
    } else {
      ReplaceKeeps(db, id, fs, path, workspace, source);
    }
  }

  lemma RegisterKeeps(db: Db, fs: FileSystem, path: Path, workspace: Id, source: Source, verifyExisting: bool)
    requires DbInv(db)
    ensures var result := IngestFile(db, fs, path, workspace, source, verifyExisting);
            result.Ingested? ==> DbInv(result.db) && Continues(db, result.db)
  {
    if path in fs {
      if CurrentAt(db, path).Some? {
        RevisitKeeps(db, CurrentAt(db, path).value, fs, path, workspace, source, verifyExisting);
      } else {
        PlaceKeeps(db, fs, path, workspace, source);
      }
    }
  }

  /* ---------- every step, every run ---------- */

  predicate Maintenance(e: Event) {
    e.Recover? || e.RetryAll? || e.RetryOne? || e.Requeue? || e.Release? || e.Sweep? || e.Backfill?
  }

  lemma MaintenanceKeeps(s: System, e: Event)
    requires DbInv(s.db) && Maintenance(e)
    ensures DbInv(Next(s, e).db) && Continues(s.db, Next(s, e).db)
  {
    match e {
      case Recover(stale) => RecoverFrames(s.db, stale);
      case RetryAll(scope) => RetryAllFrames(s.db, scope);
      case RetryOne(id) => RetryOneFrames(s.db, id);
      case Requeue => RequeueFrames(s.db);
      case Release(quotas, now) => ReleaseFrames(s.db, quotas, now);
      case Sweep(gone) => SweepFrames(s.db, gone);
      case Backfill(id, hash) => BackfillFrames(s.db, id, hash);
    }
    FramedKeeps(s.db, Next(s, e).db);
  }

  lemma StepKeepsDb(s: System, e: Event)
    requires Inv(s)
    ensures DbInv(Next(s, e).db) && Continues(s.db, Next(s, e).db)
  {
    match e {
      case Begin(w, id, quotas, gateAt, started) =>
        if w !in s.jobs && id in s.db.recordings && Claimable(s.db.recordings[id]) {
          BeginKeeps(s.db, id, quotas, gateAt, started);
        }
      case Finish(w, reply) =>
        if w in s.jobs && s.jobs[w].Transcription? {
          FinishKeeps(s.db, s.jobs[w], reply);
        }
      case EndSummary(w, started, outcome) =>
        if w in s.jobs && s.jobs[w].Summary? {
          EndSummaryKeeps(s.db, s.jobs[w], started, outcome);
        }
      case Crash(w) =>
      case Report(w) =>
      case Register(fs, path, workspace, source, verifyExisting) =>
        RegisterKeeps(s.db, fs, path, workspace, source, verifyExisting);
      case Delete(id) => DeleteKeeps(s.db, id);
      case _ => MaintenanceKeeps(s, e);
    }
  }

  /** A job that a step starts, or turns from a transcription into a summary, is in order. */
  lemma NewJobIsOk(s: System, e: Event, w: WorkerId)
    requires Inv(s) && w in Next(s, e).jobs && !(w in s.jobs && Next(s, e).jobs[w] == s.jobs[w])
    ensures JobOk(Next(s, e).db, Next(s, e).jobs[w])
  {
    match e {
      case Begin(_, id, quotas, gateAt, started) => BeginKeeps(s.db, id, quotas, gateAt, started);
      case Finish(_, reply) => FinishKeeps(s.db, s.jobs[w], reply);
      case _ =>
    }
  }

  lemma NextKeeps(s: System, e: Event)
    requires Inv(s)
    ensures Inv(Next(s, e)) && Continues(s.db, Next(s, e).db)
  {
    StepKeepsDb(s, e);
    var s' := Next(s, e);
    forall w | w in s'.jobs
      ensures JobOk(s'.db, s'.jobs[w])
    {
      if w in s.jobs && s'.jobs[w] == s.jobs[w] {
        JobCarriesOn(s.db, s'.db, s.jobs[w]);
      } else {
        NewJobIsOk(s, e, w);
      }
    }
  }

  lemma {:induction false} RunKeeps(s: System, events: seq<Event>)
    requires Inv(s)
    ensures Inv(Run(s, events)) && Continues(s.db, Run(s, events).db)
  {
    if events != [] {
      var before := Run(s, events[..|events| - 1]);
      RunKeeps(s, events[..|events| - 1]);
      NextKeeps(before, events[|events| - 1]);
      ContinuesTransitively(s.db, before.db, Run(s, events).db);
    }
  }
}
