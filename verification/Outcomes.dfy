/** What a worker commits when its call of the runner or its summary ends, over every run; and where the transcript of a
    recording comes from. */
module Outcomes {
  import opened Records
  import opened Ingest
  import opened Quota
  import opened Protocol
  import opened Safety
  import Guarantees
  import Placing

  /** No row but this one differs, and no id was given out. */
  predicate OnlyRow(a: Db, b: Db, id: Id) {
    && a.recordings.Keys == b.recordings.Keys
    && (forall i | i in a.recordings && i != id :: b.recordings[i] == a.recordings[i])
    && a.nextId == b.nextId
    && a.issued == b.issued
  }

  /** What registering wrote about the file and its owner; no stage changes that. */
  predicate SameOrigin(a: Recording, b: Recording) {
    && a.workspace == b.workspace && a.source == b.source
    && a.path == b.path && a.pathCurrent == b.pathCurrent
    && a.signature == b.signature && a.partialHash == b.partialHash && a.contentHash == b.contentHash
    && a.recordedAt == b.recordedAt && a.duplicateOf == b.duplicateOf
  }

  predicate SameRequest(a: Recording, b: Recording) {
    a.requestId == b.requestId && a.runnerStartedAt == b.runnerStartedAt
  }

  predicate SameText(a: Recording, b: Recording) {
    a.segments == b.segments && a.sttMeta == b.sttMeta && a.title == b.title && a.summary == b.summary
  }

  /* ---------- the end of a transcription ---------- */

  /** The length of a recording afterwards: as known, unless a segment ends later; then it is the latest end. */
  predicate LengthReaches(segments: seq<Segment>, known: Option<Seconds>, length: Option<Seconds>) {
    var least := if known.Some? then known.value else 0.0;
    if forall k | 0 <= k < |segments| :: segments[k].endSec <= least then length == known
    else
      && length.Some?
      && (forall k | 0 <= k < |segments| :: segments[k].endSec <= length.value)
      && exists k | 0 <= k < |segments| :: segments[k].endSec == length.value
  }

  /** The row holds just what the runner heard, has no request any more, and goes on to its summary under the same
      worker; that the speakers were not told apart is noted and handed on. */
  predicate ResultStored(s: System, s': System, worker: WorkerId, reply: Reply)
    requires worker in s.jobs && s.jobs[worker].recording in s.db.recordings && reply.Transcribed?
  {
    var id := s.jobs[worker].recording;
    && OnlyRow(s.db, s'.db, id)
    && var before, after := s.db.recordings[id], s'.db.recordings[id];
    && after.segments == reply.segments
    && after.sttMeta == Some(reply.meta)
    && after.status == Summarizing
    && after.requestId.None? && after.runnerStartedAt.None?
    && after.error == (if reply.diarizeFailed then DiarizeFailed else NoError)
    && LengthReaches(reply.segments, before.duration, after.duration)
    && SameOrigin(before, after) && after.title == before.title && after.summary == before.summary
    && s'.jobs == s.jobs[worker := Summary(id, before.workspace, after.error)]
  }

  lemma {:induction false} HeldResultIsStored(events: seq<Event>, worker: WorkerId, reply: Reply)
    requires reply.Transcribed?
    ensures var s := Run(INITIAL, events);
            worker in s.jobs && Holds(s.db, s.jobs[worker]) ==>
              ResultStored(s, Next(s, Finish(worker, reply)), worker, reply)
  {
    Guarantees.Reachable(events);
    var s := Run(INITIAL, events);
    if worker in s.jobs && Holds(s.db, s.jobs[worker]) {
      assert JobOk(s.db, s.jobs[worker]);
      Guarantees.LastEndIsLatest(reply.segments);
    }
  }

  /** A row of the ledger for an attempt that brought no result: it counts for nobody's usage. */
  predicate LoggedAsFailed(s: System, s': System, worker: WorkerId)
    requires worker in s.jobs && s.jobs[worker].Transcription?
  {
    var job := s.jobs[worker];
    && |s'.db.ledger| == |s.db.ledger| + 1
    && var row := s'.db.ledger[|s.db.ledger|];
    && s'.db.ledger == s.db.ledger + [row]
    && !row.succeeded && row.stage == TranscribeStage
    && row.workspace == job.workspace && row.recording == Some(job.recording) && row.startedAt == job.started
    && row.declared == job.declared
    && (job.recording in s.db.recordings ==> row.audioSec == s.db.recordings[job.recording].duration)
  }

  /** An unreached runner sends the row back to the queue with its request, and nothing is logged. Every other failure
      ends the recording in error, without its request; a changed source is noted as such. The artifacts stay. */
  predicate FailureStored(s: System, s': System, worker: WorkerId, reply: Reply)
    requires worker in s.jobs && s.jobs[worker].Transcription? && s.jobs[worker].recording in s.db.recordings
  {
    var id := s.jobs[worker].recording;
    && OnlyRow(s.db, s'.db, id) && s'.jobs == s.jobs - {worker}
    && var before, after := s.db.recordings[id], s'.db.recordings[id];
    && SameOrigin(before, after) && SameText(before, after) && after.duration == before.duration
    && if reply.Unreachable?
       then after.status == Pending && SameRequest(before, after) && after.error == before.error
            && s'.db.ledger == s.db.ledger
       else && after.status == Failed && after.requestId.None? && after.runnerStartedAt.None?
            && after.error == (if reply.Changed? then SourceChanged else OtherError)
            && LoggedAsFailed(s, s', worker)
  }

  lemma {:induction false} HeldFailureIsStored(events: seq<Event>, worker: WorkerId, reply: Reply)
    requires !reply.Transcribed?
    ensures var s := Run(INITIAL, events);
            worker in s.jobs && Holds(s.db, s.jobs[worker]) ==>
              FailureStored(s, Next(s, Finish(worker, reply)), worker, reply)
  {
  }

  /** Without the fence the worker is done, no row changes, and a failure leaves nothing on the ledger either. */
  lemma FencedEndsTheJob(s: System, worker: WorkerId, reply: Reply)
    requires worker in s.jobs && s.jobs[worker].Transcription? && !Holds(s.db, s.jobs[worker])
    ensures var s' := Next(s, Finish(worker, reply));
            && s'.jobs == s.jobs - {worker}
            && s'.db == s.db.(ledger := s'.db.ledger)
            && (!reply.Transcribed? ==> s'.db.ledger == s.db.ledger)
            && (reply.Transcribed? && s.jobs[worker].recording in s.db.recordings ==> LoggedAsFailed(s, s', worker))
  {
  }

  /* ---------- the end of a summary ---------- */

  /** A title is set only where there was none, an empty text replaces nothing, and the blank transcript gets the empty
      summary. What the transcription noted is carried over; a failed summary notes its own failure. */
  predicate SummaryStored(before: Recording, after: Recording, carried: ErrorNote, outcome: SummaryOutcome) {
    && SameOrigin(before, after) && SameRequest(before, after) && after.duration == before.duration
    && after.segments == before.segments && after.sttMeta == before.sttMeta
    && after.status == (if before.pathCurrent then Done else Missing)
    && match outcome
       case Summarized(title, summary) =>
         && after.title == (if before.title.None? && title != "" then Some(title) else before.title)
         && after.summary == (if summary != "" then Some(summary) else before.summary)
         && after.error == carried
       case BlankTranscript => after.title == before.title && after.summary == Some("") && after.error == carried
       case SummaryFailed => after.title == before.title && after.summary == before.summary && after.error == OtherError
       case NoEnricher =>
         after.title == before.title && after.summary == before.summary && after.error == before.error
  }

  /** Each summary that was tried is logged, linked to its recording, and charges nobody for a transcription. */
  predicate SummaryLogged(s: System, s': System, job: Job, started: real, outcome: SummaryOutcome) {
    if outcome.NoEnricher? then s'.db.ledger == s.db.ledger
    else
      && |s'.db.ledger| == |s.db.ledger| + 1
      && var row := s'.db.ledger[|s.db.ledger|];
      && s'.db.ledger == s.db.ledger + [row]
      && row.stage == EnrichStage && (row.succeeded <==> !outcome.SummaryFailed?)
      && row.workspace == job.workspace && row.recording == Some(job.recording) && row.startedAt == started
      && (job.recording in s.db.recordings ==> row.audioSec == s.db.recordings[job.recording].duration)
  }

  lemma SummaryIsStored(s: System, worker: WorkerId, started: real, outcome: SummaryOutcome)
    requires worker in s.jobs && s.jobs[worker].Summary?
    ensures var s', job := Next(s, EndSummary(worker, started, outcome)), s.jobs[worker];
            && s'.jobs == s.jobs - {worker}
            && if job.recording !in s.db.recordings then s'.db == s.db
               else && OnlyRow(s.db, s'.db, job.recording)
                    && SummaryStored(s.db.recordings[job.recording], s'.db.recordings[job.recording], job.carried,
                                     outcome)
                    && SummaryLogged(s, s', job, started, outcome)
  {
  }

  /* ---------- where a transcript comes from ---------- */

  /** A worker of this recording, holding its request, brings back this transcript. */
  predicate Brings(s: System, e: Event, id: Id, segments: seq<Segment>, meta: string) {
    && e.Finish? && e.worker in s.jobs && Holds(s.db, s.jobs[e.worker]) && s.jobs[e.worker].recording == id
    && e.reply.Transcribed? && e.reply.segments == segments && e.reply.meta == meta
  }

  predicate BroughtBack(events: seq<Event>, id: Id, segments: seq<Segment>, meta: string) {
    events != [] &&
    (var rest := events[..|events| - 1];
     BroughtBack(rest, id, segments, meta) || Brings(Run(INITIAL, rest), events[|events| - 1], id, segments, meta))
  }

  predicate SameTranscript(a: Recording, b: Recording) {
    a.segments == b.segments && a.sttMeta == b.sttMeta
  }

  /** Apart from a worker bringing it back, no step changes a transcript, and a new row has none. */
  predicate TranscriptStays(was: Table, now: Table, id: Id)
    requires id in now
  {
    if id in was then SameTranscript(was[id], now[id]) else now[id].segments == [] && now[id].sttMeta.None?
  }

  lemma FinishMovesTranscripts(s: System, e: Event, id: Id)
    requires e.Finish? && id in Next(s, e).db.recordings
    ensures var r := Next(s, e).db.recordings[id];
            || TranscriptStays(s.db.recordings, Next(s, e).db.recordings, id)
            || (r.sttMeta.Some? && Brings(s, e, id, r.segments, r.sttMeta.value))
  {
  }

  lemma PlacingLeavesTranscripts(db: Db, fs: FileSystem, path: Path, workspace: Id, source: Source, id: Id)
    requires path in fs && db.nextId !in db.recordings
    ensures var now := Place(db, fs, path, workspace, source).db.recordings;
            id in now ==> TranscriptStays(db.recordings, now, id)
  {
    Placing.PlacingChangesOneRow(db, fs, path, workspace, source);
  }

  lemma RevisitingLeavesTranscripts(db: Db, holder: Id, fs: FileSystem, path: Path, workspace: Id, source: Source,
        verifyExisting: bool, id: Id)
    requires path in fs && db.nextId !in db.recordings && holder in db.recordings
    ensures var result := Revisit(db, holder, fs, path, workspace, source, verifyExisting);
            result.Ingested? && id in result.db.recordings ==>
              TranscriptStays(db.recordings, result.db.recordings, id)
  {
    var result := Revisit(db, holder, fs, path, workspace, source, verifyExisting);
    var left := WithRow(db, holder, LetGo(db.recordings[holder]));
    if result == Place(left, fs, path, workspace, source) {
      PlacingLeavesTranscripts(left, fs, path, workspace, source, id);
      assert SameTranscript(db.recordings[holder], left.recordings[holder]);
    }
  }

  lemma RegisterLeavesTranscripts(db: Db, e: Event, id: Id)
    requires RowsOk(db) && e.Register?
    ensures var result := IngestFile(db, e.fs, e.path, e.workspace, e.source, e.verifyExisting);
            result.Ingested? && id in result.db.recordings ==>
              TranscriptStays(db.recordings, result.db.recordings, id)
  {
    assert db.nextId !in db.recordings;
    if e.path in e.fs {
      var existing := CurrentAt(db, e.path);
      if existing.Some? {
        RevisitingLeavesTranscripts(db, existing.value, e.fs, e.path, e.workspace, e.source, e.verifyExisting, id);
      } else {
        PlacingLeavesTranscripts(db, e.fs, e.path, e.workspace, e.source, id);
      }
    }
  }

  lemma MaintenanceLeavesTranscripts(s: System, e: Event, id: Id)
    requires Maintenance(e) && id in Next(s, e).db.recordings
    ensures TranscriptStays(s.db.recordings, Next(s, e).db.recordings, id)
  {
  }

  lemma WorkerLeavesTranscripts(s: System, e: Event, id: Id)
    requires (e.Begin? || e.EndSummary?) && id in Next(s, e).db.recordings
    ensures TranscriptStays(s.db.recordings, Next(s, e).db.recordings, id)
  {
  }

  lemma DeletingLeavesTranscripts(s: System, e: Event, id: Id)
    requires e.Delete? && id in Next(s, e).db.recordings
    ensures TranscriptStays(s.db.recordings, Next(s, e).db.recordings, id)
  {
  }

  lemma StepMovesTranscripts(s: System, e: Event, id: Id)
    requires RowsOk(s.db) && id in Next(s, e).db.recordings
    ensures var r := Next(s, e).db.recordings[id];
            || TranscriptStays(s.db.recordings, Next(s, e).db.recordings, id)
            || (r.sttMeta.Some? && Brings(s, e, id, r.segments, r.sttMeta.value))
  {
    match e {
      case Finish(_, _) => FinishMovesTranscripts(s, e, id);
      case Register(_, _, _, _, _) => RegisterLeavesTranscripts(s.db, e, id);
      case Begin(_, _, _, _, _) => WorkerLeavesTranscripts(s, e, id);
      case EndSummary(_, _, _) => WorkerLeavesTranscripts(s, e, id);
      case Crash(_) =>
      case Report(_) =>
      case Delete(_) => DeletingLeavesTranscripts(s, e, id);
      case _ => MaintenanceLeavesTranscripts(s, e, id);
    }
  }

  /** In every run a stored transcript, segment by segment and with its metadata, is one that a worker of this very
      recording brought back while it held the request. */
  lemma {:induction false} StoredIsBroughtBack(events: seq<Event>, id: Id)
    ensures var recs := Run(INITIAL, events).db.recordings;
            id in recs && HasTranscript(recs[id]) ==>
              recs[id].sttMeta.Some? && BroughtBack(events, id, recs[id].segments, recs[id].sttMeta.value)
  {
    if events != [] {
      var rest, last := events[..|events| - 1], events[|events| - 1];
      StoredIsBroughtBack(rest, id);
      RunKeeps(INITIAL, rest);
      if id in Next(Run(INITIAL, rest), last).db.recordings {
        StepMovesTranscripts(Run(INITIAL, rest), last, id);
      }
    }
  }
}
