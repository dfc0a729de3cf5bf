/** The transcription protocol as a transition system. Every database commit is one step, any
    number of workers take steps in any order, and a worker may stop between two of its commits. */
module Protocol {
  import opened Records
  import opened Ingest
  import opened Quota

  type WorkerId = nat

  /** What a worker keeps in memory between two commits. */
  datatype Job =
    | Transcription(recording: Id, token: nat, started: real, base: real,
                    workspace: Id, declared: Option<Seconds>, limit: real)
    | Summary(recording: Id, workspace: Id, carried: ErrorNote)

  /** How a call of the runner ended. `Changed` is a source file that is no longer the registered one. */
  datatype Reply =
    | Transcribed(segments: seq<Segment>, meta: string, diarizeFailed: bool)
    | Unreachable | TimedOut | Changed | Broke

  /** How a summary ended. A blank transcript gets the empty summary, which keeps it from being queued again. */
  datatype SummaryOutcome = Summarized(title: string, summary: string) | BlankTranscript | SummaryFailed | NoEnricher

  datatype System = System(db: Db, jobs: map<WorkerId, Job>)

  /** `Report` is a commit of progress or of a sign of life. It changes nothing kept here; but the update of a deleted
      row fails, and that ends the stage with nothing stored or logged. */
  datatype Event =
    | Begin(worker: WorkerId, id: Id, quotas: Quotas, gateAt: real, started: real)
    | Finish(worker: WorkerId, reply: Reply)
    | EndSummary(worker: WorkerId, started: real, outcome: SummaryOutcome)
    | Crash(worker: WorkerId)
    | Report(worker: WorkerId)
    | Recover(stale: set<Id>)
    | RetryAll(scope: Option<Id>)
    | RetryOne(id: Id)
    | Requeue
    | Release(quotas: Quotas, now: real)
    | Register(fs: FileSystem, path: Path, workspace: Id, source: Source, verifyExisting: bool)
    | Sweep(gone: set<Id>)
    | Backfill(id: Id, hash: Hash)
    | Delete(id: Id)

  const TIMEOUT_FLOOR: real := 3600.0
  const TIMEOUT_RATIO: real := 20.0

  function JobTimeout(duration: Option<Seconds>): (limit: real)
    ensures limit >= 3600.0 && (duration.Some? ==> limit >= 20.0 * duration.value)
    ensures limit == 3600.0 || (duration.Some? && limit == 20.0 * duration.value)
  {
    var scaled := (if duration.Some? then duration.value else 0.0) * TIMEOUT_RATIO;
    if scaled > TIMEOUT_FLOOR then scaled else TIMEOUT_FLOOR
  }

  /* ---------- the commits ---------- */

  /** The claim transaction of one worker: the quota gate, then the first commit of a stage. */
  function BeginJob(db: Db, id: Id, quotas: Quotas, gateAt: real, started: real): (Db, Option<Job>)
    requires id in db.recordings && Claimable(db.recordings[id])
  {
    var r := db.recordings[id];
    if r.status == Enriching then
      (WithRow(db, id, r.(status := Summarizing)),
       Some(Summary(id, r.workspace, if r.error == DiarizeFailed then DiarizeFailed else NoError)))
    else
      match TranscriptionBlock(db.ledger, quotas, r.workspace, r.duration, gateAt)
      case DurationUnknown => (WithRow(db, id, r.(status := Failed, error := OtherError)), None)
      case Exceeded => (WithRow(db, id, r.(status := QuotaBlocked)), None)
      case Allowed =>
        var token := if r.requestId.Some? then r.requestId.value else |db.issued|;
        var issued := if r.requestId.Some? then db.issued else db.issued + [started];
        var r1 := if r.requestId.Some? then r
                  else r.(requestId := Some(token), runnerStartedAt := Some(started));
        var base := if r1.runnerStartedAt.Some? then r1.runnerStartedAt.value else started;
        (WithRow(db, id, r1.(status := Transcribing)).(issued := issued),
         Some(Transcription(id, token, started, base, r.workspace, r.duration, JobTimeout(r.duration))))
  }

  /** The fence: the row is current and still carries the request id the worker submitted. */
  predicate Holds(db: Db, job: Job) {
    && job.Transcription?
    && job.recording in db.recordings
    && db.recordings[job.recording].pathCurrent
    && db.recordings[job.recording].requestId == Some(job.token)
  }

  function LastEnd(segments: seq<Segment>): Seconds {
    if segments == [] then 0.0
    else
      var rest := LastEnd(segments[..|segments| - 1]);
      var end := segments[|segments| - 1].endSec;
      if end > rest then end else rest
  }

  function Measured(declared: Option<Seconds>, segments: seq<Segment>): Option<Seconds> {
    var heard := LastEnd(segments);
    if heard > (if declared.Some? then declared.value else 0.0) then Some(heard) else declared
  }

  function Logged(db: Db, row: LedgerRow): Db {
    db.(ledger := db.ledger + [row])
  }

  function Entry(job: Job, recording: Option<Id>, succeeded: bool, audio: Option<Seconds>): LedgerRow
    requires job.Transcription?
  {
    LedgerRow(job.workspace, recording, TranscribeStage, succeeded, job.started, audio, job.declared)
  }

  /** The result, the cleared request id and the charge, in one commit. */
  function StoreTranscript(db: Db, job: Job, reply: Reply): Db
    requires Holds(db, job) && reply.Transcribed?
  {
    var r := db.recordings[job.recording];
    var length := Measured(r.duration, reply.segments);
    var r1 := r.(segments := reply.segments, sttMeta := Some(reply.meta), duration := length,
    error := if reply.diarizeFailed then DiarizeFailed else NoError,
    status := Summarizing, requestId := None, runnerStartedAt := None);
    Logged(WithRow(db, job.recording, r1), Entry(job, Some(job.recording), true, length))
  }

  function FailRequest(db: Db, job: Job, note: ErrorNote): Db
    requires Holds(db, job)
  {
    var r := db.recordings[job.recording];
    Logged(WithRow(db, job.recording, r.(status := Failed, error := note, requestId := None, runnerStartedAt := None)),
           Entry(job, Some(job.recording), false, r.duration))
  }

  function FinishJob(db: Db, job: Job, reply: Reply): (Db, Option<Job>)
    requires job.Transcription?
  {
    if Holds(db, job) then
      match reply
      case Transcribed(_, _, diarizeFailed) =>
        var note := if diarizeFailed then DiarizeFailed else NoError;
        (StoreTranscript(db, job, reply), Some(Summary(job.recording, job.workspace, note)))
      case Unreachable => (WithRow(db, job.recording, db.recordings[job.recording].(status := Pending)), None)
      case TimedOut => (FailRequest(db, job, OtherError), None)
      case Broke => (FailRequest(db, job, OtherError), None)
      case Changed => (FailRequest(db, job, SourceChanged), None)
    else if !reply.Transcribed? then (db, None)
    else if job.recording in db.recordings then
      (Logged(db, Entry(job, Some(job.recording), false, db.recordings[job.recording].duration)), None)
    else
      // the audio was transcribed for a recording deleted meanwhile: the usage goes on the books all the same
      (Logged(db, Entry(job, None, true, job.declared)), None)
  }

  function SummaryEntry(job: Job, started: real, outcome: SummaryOutcome, audio: Option<Seconds>): LedgerRow {
    LedgerRow(job.workspace, Some(job.recording), EnrichStage, !outcome.SummaryFailed?, started, audio, None)
  }

  /** Of a recording deleted meanwhile nothing is stored, not even that its summary failed: reading the deleted row
      ends the stage. */
  function FinishSummary(db: Db, job: Job, started: real, outcome: SummaryOutcome): Db
    requires job.Summary?
  {
    if job.recording !in db.recordings then db
    else
      var r := db.recordings[job.recording];
      var r1 := match outcome
                case Summarized(title, summary) =>
                  r.(title := if r.title.None? && title != "" then Some(title) else r.title,
                  summary := if summary != "" then Some(summary) else r.summary,
                  error := job.carried)
                case BlankTranscript => r.(summary := Some(""), error := job.carried)
                case SummaryFailed => r.(error := OtherError)
                case NoEnricher => r;
      var db1 := WithRow(db, job.recording, r1.(status := if r.pathCurrent then Done else Missing));
      if outcome.NoEnricher? then db1
      else Logged(db1, SummaryEntry(job, started, outcome, r.duration))
  }

  /** An `UPDATE` that rewrites each row on its own. */
  function Mapped(db: Db, f: (Id, Recording) -> Recording): Db {
    db.(recordings := map id | id in db.recordings :: f(id, db.recordings[id]))
  }

  function Recovered(db: Db, stale: set<Id>): Db {
    Mapped(db, (id, r: Recording) =>
             if id in stale && InFlight(r.status) && r.pathCurrent then r.(status := ResumeStatus(r)) else r)
  }

  function Retried(r: Recording): Recording {
    r.(status := CaseStatus(r), error := NoError)
  }

  predicate Retriable(r: Recording, scope: Option<Id>) {
    r.status == Failed && r.pathCurrent && (scope.None? || scope.value == r.workspace)
  }

  function RetryAllFailed(db: Db, scope: Option<Id>): Db {
    Mapped(db, (_, r: Recording) => if Retriable(r, scope) then Retried(r) else r)
  }

  function RetryOneFailed(db: Db, id: Id): Db {
    if id in db.recordings && Retriable(db.recordings[id], None) then
      WithRow(db, id, db.recordings[id].(status := ResumeStatus(db.recordings[id]), error := NoError))
    else db
  }

  function RequeueUnenriched(db: Db): Db {
    Mapped(db, (_, r: Recording) =>
             if r.status == Done && r.pathCurrent && r.summary.None? && HasTranscript(r)
             then r.(status := Enriching) else r)
  }

  /** Held back by the quota, and the gate would let it through at `now`. */
  predicate Releasable(db: Db, quotas: Quotas, now: real, r: Recording) {
    && r.status == QuotaBlocked
    && r.pathCurrent
    && TranscriptionBlock(db.ledger, quotas, r.workspace, r.duration, now) == Allowed
  }

  function ReleaseBlocked(db: Db, quotas: Quotas, now: real): Db {
    Mapped(db, (_, r: Recording) => if Releasable(db, quotas, now, r) then r.(status := CaseStatus(r)) else r)
  }

  function Swept(db: Db, gone: set<Id>): Db {
    Mapped(db, (id, r: Recording) => if id in gone then r.(status := Missing) else r)
  }

  function Backfilled(db: Db, id: Id, hash: Hash): Db {
    if id in db.recordings && db.recordings[id].contentHash.None? && db.recordings[id].pathCurrent
    then WithRow(db, id, db.recordings[id].(contentHash := Some(hash)))
    else db
  }

  /** Duplicates of a deleted original go back to the queue; other references to it become null. */
  function Orphaned(r: Recording, original: Id): Recording {
    if r.duplicateOf != Some(original) then r
    else if r.status == Duplicate then r.(status := Pending, duplicateOf := None)
    else r.(duplicateOf := None)
  }

  function Unlinked(row: LedgerRow, id: Id): LedgerRow {
    if row.recording == Some(id) then row.(recording := None) else row
  }

  function UnlinkedAll(ledger: seq<LedgerRow>, id: Id): seq<LedgerRow> {
    seq(|ledger|, k requires 0 <= k < |ledger| => Unlinked(ledger[k], id))
  }

  function DeleteRecording(db: Db, id: Id): Db {
    db.(recordings := map i | i in db.recordings && i != id :: Orphaned(db.recordings[i], id),
    ledger := UnlinkedAll(db.ledger, id))
  }

  /* ---------- the transition system ---------- */

  function After(s: System, worker: WorkerId, step: (Db, Option<Job>)): System {
    System(step.0, if step.1.Some? then s.jobs[worker := step.1.value] else s.jobs - {worker})
  }

  function Next(s: System, e: Event): System {
    match e
    case Begin(w, id, quotas, gateAt, started) =>
      if w in s.jobs || id !in s.db.recordings || !Claimable(s.db.recordings[id]) then s
      else After(s, w, BeginJob(s.db, id, quotas, gateAt, started))
    case Finish(w, reply) =>
      if w !in s.jobs || !s.jobs[w].Transcription? then s
      else After(s, w, FinishJob(s.db, s.jobs[w], reply))
    case EndSummary(w, started, outcome) =>
      if w !in s.jobs || !s.jobs[w].Summary? then s
      else After(s, w, (FinishSummary(s.db, s.jobs[w], started, outcome), None))
    case Crash(w) => s.(jobs := s.jobs - {w})
    case Report(w) => if w in s.jobs && s.jobs[w].recording !in s.db.recordings then s.(jobs := s.jobs - {w}) else s
    case Recover(stale) => s.(db := Recovered(s.db, stale))
    case RetryAll(scope) => s.(db := RetryAllFailed(s.db, scope))
    case RetryOne(id) => s.(db := RetryOneFailed(s.db, id))
    case Requeue => s.(db := RequeueUnenriched(s.db))
    case Release(quotas, now) => s.(db := ReleaseBlocked(s.db, quotas, now))
    case Register(fs, path, workspace, source, verifyExisting) =>
      var result := IngestFile(s.db, fs, path, workspace, source, verifyExisting);
      if result.Ingested? then s.(db := result.db) else s
    case Sweep(gone) => s.(db := Swept(s.db, gone))
    case Backfill(id, hash) => s.(db := Backfilled(s.db, id, hash))
    case Delete(id) => s.(db := DeleteRecording(s.db, id))
  }

  const INITIAL := System(Db(map[], 0, [], []), map[])

  /** The state after a sequence of events. */
  function Run(s: System, events: seq<Event>): System {
    if events == [] then s else Next(Run(s, events[..|events| - 1]), events[|events| - 1])
  }
}
