/** What the invariant means for the archive's users: over every run, from the empty database, with
    any number of workers, crashes, recoveries, retries, moves, replaced files and deletions. */
module Guarantees {
  import opened Records
  import opened Ingest
  import opened Quota
  import opened Protocol
  import opened Safety

  lemma {:induction false} Reachable(events: seq<Event>)
    ensures Inv(Run(INITIAL, events))
  {
    RunKeeps(INITIAL, events);
  }

  /** A recording that still exists has one linked bill if its transcript is stored, and none otherwise. */
  lemma {:induction false} BilledExactlyOnce(events: seq<Event>, id: Id)
    ensures var db := Run(INITIAL, events).db;
            id in db.recordings ==> Bills(db.ledger, id) == if HasTranscript(db.recordings[id]) then 1 else 0
  {
    Reachable(events);
  }

  /** A stored transcript is never replaced or lost while its recording exists, and its recording is
      never queued for transcription again. */
  lemma {:induction false} TranscriptIsWrittenOnce(events: seq<Event>, more: seq<Event>, id: Id)
    ensures var early := Run(INITIAL, events);
            var late := Run(early, more);
            id in late.db.recordings && id < early.db.nextId ==>
              && id in early.db.recordings
              && (HasTranscript(early.db.recordings[id]) ==>
                    && late.db.recordings[id].segments == early.db.recordings[id].segments
                    && late.db.recordings[id].sttMeta == early.db.recordings[id].sttMeta
                    && late.db.recordings[id].status !in {Pending, Transcribing, QuotaBlocked, Failed})
  {
    var early := Run(INITIAL, events);
    Reachable(events);
    RunKeeps(early, more);
    var late := Run(early, more);
    if id in late.db.recordings && id < early.db.nextId {
      assert Follows(early.db.recordings[id], late.db.recordings[id], |early.db.issued|);
      assert RowOk(late.db.recordings[id], late.db.issued);
    }
  }

  /** Content never changes under an id, and neither does the tenant. */
  lemma {:induction false} IdentityFollowsContent(events: seq<Event>, more: seq<Event>, id: Id)
    ensures var early := Run(INITIAL, events);
            var late := Run(early, more);
            id in late.db.recordings && id < early.db.nextId ==>
              && id in early.db.recordings
              && late.db.recordings[id].workspace == early.db.recordings[id].workspace
              && (early.db.recordings[id].contentHash.Some? ==>
                    late.db.recordings[id].contentHash == early.db.recordings[id].contentHash)
  {
    Reachable(events);
    RunKeeps(Run(INITIAL, events), more);
  }

  /* ---------- the fence ---------- */

  /** A worker that has lost its request never gets it back. */
  lemma {:induction false} FencedForever(events: seq<Event>, more: seq<Event>, worker: WorkerId)
    ensures var early := Run(INITIAL, events);
            worker in early.jobs && early.jobs[worker].Transcription? && !Holds(early.db, early.jobs[worker]) ==>
              !Holds(Run(early, more).db, early.jobs[worker])
  {
    var early := Run(INITIAL, events);
    Reachable(events);
    RunKeeps(early, more);
    var late := Run(early, more);
    if worker in early.jobs && early.jobs[worker].Transcription? && Holds(late.db, early.jobs[worker]) {
      var job := early.jobs[worker];
      assert JobOk(early.db, job);
      assert Follows(early.db.recordings[job.recording], late.db.recordings[job.recording], |early.db.issued|);
      assert RowOk(early.db.recordings[job.recording], early.db.issued);
    }
  }

  /** Whatever a fenced worker comes back with, no recording changes and nobody is billed for it. */
  lemma FencedReplyStoresNothing(db: Db, job: Job, reply: Reply, id: Id)
    requires DbInv(db) && job.Transcription? && !Holds(db, job)
    ensures var (db', next) := FinishJob(db, job, reply);
            && next.None?
            && db'.recordings == db.recordings
            && (id in db.recordings ==> Bills(db'.ledger, id) == Bills(db.ledger, id))
  {
    var db' := FinishJob(db, job, reply).0;
    if db' != db {
      BillsOfAppend(db.ledger, db'.ledger[|db.ledger|], id);
    }
  }

  /** The first result stored under a request id, the file being replaced, or the recording being
      deleted fences every worker still waiting under that request id. */
  lemma WhatFences(db: Db, job: Job, reply: Reply, other: Job)
    requires Holds(db, job) && other.Transcription? && other.recording == job.recording
    ensures reply.Transcribed? ==> !Holds(StoreTranscript(db, job, reply), other)
    ensures !Holds(WithRow(db, job.recording, LetGo(db.recordings[job.recording])), other)
    ensures !Holds(DeleteRecording(db, job.recording), other)
  {
  }

  /** Every attempt under one request id counts its time from the same instant, which is also the one
      stored beside the id. */
  lemma OneClockPerRequest(events: seq<Event>, a: WorkerId, b: WorkerId)
    ensures var s := Run(INITIAL, events);
            && ((a in s.jobs && b in s.jobs && s.jobs[a].Transcription? && s.jobs[b].Transcription?
                 && s.jobs[a].token == s.jobs[b].token) ==>
                  s.jobs[a].base == s.jobs[b].base)
            && (a in s.jobs && Holds(s.db, s.jobs[a]) ==>
                  s.db.recordings[s.jobs[a].recording].runnerStartedAt == Some(s.jobs[a].base))
  {
    Reachable(events);
    var s := Run(INITIAL, events);
    if a in s.jobs && Holds(s.db, s.jobs[a]) {
      assert JobOk(s.db, s.jobs[a]);
      assert RowOk(s.db.recordings[s.jobs[a].recording], s.db.issued);
    }
  }

  /* ---------- what a transcription is charged ---------- */

  lemma {:induction false} LastEndIsLatest(segments: seq<Segment>)
    ensures forall k | 0 <= k < |segments| :: segments[k].endSec <= LastEnd(segments)
    ensures LastEnd(segments) == 0.0 || exists k | 0 <= k < |segments| :: segments[k].endSec == LastEnd(segments)
  {
    if segments != [] {
      var rest := segments[..|segments| - 1];
      LastEndIsLatest(rest);
      if LastEnd(segments) == LastEnd(rest) && LastEnd(rest) != 0.0 {
        var k :| 0 <= k < |rest| && rest[k].endSec == LastEnd(rest);
        assert segments[k].endSec == LastEnd(segments);
      }
    }
  }

  /** The charge reaches the last word of the transcript and is at least the probed length, and it is no more
      than the larger of the two. It is also the length the recording has from then on. */
  lemma ChargeReachesTheLastWord(db: Db, job: Job, reply: Reply)
    requires Holds(db, job) && reply.Transcribed?
    ensures var after := StoreTranscript(db, job, reply);
            var bill, probed := after.ledger[|db.ledger|], db.recordings[job.recording].duration;
            && Billed(bill, job.recording)
            && bill.audioSec == after.recordings[job.recording].duration
            && (forall k | 0 <= k < |reply.segments| :: reply.segments[k].endSec <= Charge(bill))
            && (probed.Some? ==> probed.value <= Charge(bill))
            && (|| Charge(bill) == 0.0
                || (probed.Some? && Charge(bill) == probed.value)
                || exists k | 0 <= k < |reply.segments| :: reply.segments[k].endSec == Charge(bill))
  {
    LastEndIsLatest(reply.segments);
  }

  /* ---------- no dead ends ---------- */

  /** Retrying one and retrying all do the same to a failed row, and leave it claimable without its note. */
  predicate RetryLeadsOn(db: Db, id: Id)
    requires id in db.recordings
  {
    var one, all := RetryOneFailed(db, id).recordings, RetryAllFailed(db, None).recordings;
    id in one && id in all && one[id] == all[id] && Claimable(one[id]) && one[id].error == NoError
  }

  predicate RequeueLeadsOn(db: Db, id: Id)
    requires id in db.recordings
  {
    var recs := RequeueUnenriched(db).recordings;
    id in recs && (db.recordings[id].summary.Some? || Claimable(recs[id]))
  }

  /** What the quota holds is freed exactly when the gate lets it through. */
  predicate ReleaseLeadsOn(db: Db, id: Id, quotas: Quotas, now: real)
    requires id in db.recordings
  {
    var r, recs := db.recordings[id], ReleaseBlocked(db, quotas, now).recordings;
    && id in recs
    && (Claimable(recs[id])
        <==> TranscriptionBlock(db.ledger, quotas, r.workspace, r.duration, now) == Allowed)
  }

  /** Recovery finishes what has its summary, and repeats no finished transcription. */
  predicate RecoveryLeadsOn(db: Db, id: Id)
    requires id in db.recordings
  {
    var r, recs := db.recordings[id], Recovered(db, {id}).recordings;
    id in recs && if r.summary.Some? then recs[id].status == Done
                  else Claimable(recs[id]) && (recs[id].status == Pending <==> !HasTranscript(r))
  }

  /** A visit that finds the content of a missing row at its path again brings the row back: as a duplicate, finished,
      or to be claimed for what its artifacts lack. */
  predicate ReturnLeadsOn(db: Db, id: Id, fs: FileSystem, verifyExisting: bool)
    requires id in db.recordings
  {
    var r := db.recordings[id];
    var result := IngestFile(db, fs, r.path, r.workspace, r.source, verifyExisting);
    r.path in fs && SameContent(r, fs[r.path]) ==>
      && result.Ingested? && result.id == id && result.outcome == Reappeared
      && id in result.db.recordings
      && var now := result.db.recordings[id];
         if r.duplicateOf.Some? then now.status == Duplicate
         else if r.summary.Some? then now.status == Done
         else Claimable(now) && (now.status == Pending <==> !HasTranscript(r))
  }

  lemma ReturningLeadsOn(db: Db, id: Id, fs: FileSystem, verifyExisting: bool)
    requires DbInv(db) && id in db.recordings && db.recordings[id].pathCurrent && db.recordings[id].status == Missing
    ensures ReturnLeadsOn(db, id, fs, verifyExisting)
  {
    var r := db.recordings[id];
    assert RowOk(r, db.issued) && SitsAt(r, r.path);
    assert CurrentAt(db, r.path) == Some(id);
  }

  lemma MaintenanceLeadsOn(db: Db, id: Id, quotas: Quotas, now: real)
    requires DbInv(db) && id in db.recordings && db.recordings[id].pathCurrent
    ensures var status := db.recordings[id].status;
            && (status == Failed ==> RetryLeadsOn(db, id))
            && (status == Done ==> RequeueLeadsOn(db, id))
            && (status == QuotaBlocked ==> ReleaseLeadsOn(db, id, quotas, now))
            && (InFlight(status) ==> RecoveryLeadsOn(db, id))
  {
    assert RowOk(db.recordings[id], db.issued);
  }

  /** Whatever a run has come to, every current recording has a way on: it can be claimed, or one maintenance
      step makes it so, or it is finished, or points at its original, or it waits for its file, and a visit that finds
      that again leads it on. */
  lemma {:induction false} NoDeadEnds(events: seq<Event>, id: Id, quotas: Quotas, now: real, fs: FileSystem,
        verifyExisting: bool)
    ensures var db := Run(INITIAL, events).db;
            id in db.recordings && db.recordings[id].pathCurrent ==>
              match db.recordings[id].status
              case Failed => RetryLeadsOn(db, id)
              case Done => RequeueLeadsOn(db, id)
              case QuotaBlocked => ReleaseLeadsOn(db, id, quotas, now)
              case Missing => ReturnLeadsOn(db, id, fs, verifyExisting)
              case Duplicate => db.recordings[id].duplicateOf.Some?
              case Pending => Claimable(db.recordings[id])
              case Enriching => Claimable(db.recordings[id])
              case _ => RecoveryLeadsOn(db, id)
  {
    Reachable(events);
    var db := Run(INITIAL, events).db;
    if id in db.recordings && db.recordings[id].pathCurrent {
      MaintenanceLeadsOn(db, id, quotas, now);
      if db.recordings[id].status == Missing {
        ReturningLeadsOn(db, id, fs, verifyExisting);
      }
      assert RowOk(db.recordings[id], db.issued);
    }
  }

  /* ---------- duplicates ---------- */

  /** A duplicate points at a row of its own workspace that points at nothing, and only a duplicate or
      missing row points anywhere. */
  lemma {:induction false} DuplicatesPointAtOriginals(events: seq<Event>, id: Id)
    ensures var recs := Run(INITIAL, events).db.recordings;
            id in recs && recs[id].duplicateOf.Some? ==>
              && recs[id].status in {Duplicate, Missing}
              && !HasTranscript(recs[id])
              && recs[id].duplicateOf.value in recs
              && recs[recs[id].duplicateOf.value].duplicateOf.None?
              && recs[recs[id].duplicateOf.value].workspace == recs[id].workspace
  {
    Reachable(events);
    var db := Run(INITIAL, events).db;
    if id in db.recordings {
      assert RowOk(db.recordings[id], db.issued) && PointsAtRoot(db.recordings, db.recordings[id]);
    }
  }

  /** Deleting an original leaves no row that points at it, and each of its duplicates can be claimed. */
  lemma {:induction false} DeletingRevivesDuplicates(events: seq<Event>, original: Id, id: Id)
    ensures var before := Run(INITIAL, events).db.recordings;
            var after := Run(INITIAL, events + [Delete(original)]).db.recordings;
            && (id in after ==> after[id].duplicateOf != Some(original))
            && (id in before && id != original && before[id].status == Duplicate
                  && before[id].duplicateOf == Some(original) ==>
                  id in after && after[id].status == Pending && Claimable(after[id]))
            && (id in before && id != original && before[id].duplicateOf != Some(original) ==>
                  id in after && after[id] == before[id])
  {
    Reachable(events);
    assert (events + [Delete(original)])[..|events|] == events;
    var db := Run(INITIAL, events).db;
    if id in db.recordings {
      assert RowOk(db.recordings[id], db.issued);
    }
  }

  /** The bulk updates leave out the duplicate test of `resume_status` and still agree with it. */
  lemma {:induction false} BulkResumeAgrees(events: seq<Event>, id: Id)
    ensures var recs := Run(INITIAL, events).db.recordings;
            id in recs && recs[id].status in {Failed, QuotaBlocked} ==>
              CaseStatus(recs[id]) == ResumeStatus(recs[id]) == Pending
  {
    Reachable(events);
    var db := Run(INITIAL, events).db;
    if id in db.recordings {
      assert RowOk(db.recordings[id], db.issued);
    }
  }

  /* ---------- usage ---------- */

  lemma {:induction false} UsedSecondsOfUnlinked(ledger: seq<LedgerRow>, id: Id, workspace: Id, since: real)
    ensures UsedSeconds(UnlinkedAll(ledger, id), workspace, since) == UsedSeconds(ledger, workspace, since)
  {
    if ledger != [] {
      var n := |ledger| - 1;
      UsedSecondsOfUnlinked(ledger[..n], id, workspace, since);
      assert UnlinkedAll(ledger, id)[..n] == UnlinkedAll(ledger[..n], id);
    }
  }

  lemma UsedSecondsOfAppend(ledger: seq<LedgerRow>, row: LedgerRow, workspace: Id, since: real)
    ensures UsedSeconds(ledger + [row], workspace, since)
         == UsedSeconds(ledger, workspace, since) + if Counts(row, workspace, since) then Charge(row) else 0.0
  {
    assert (ledger + [row])[..|ledger|] == ledger;
  }

  /** The three things a step can do to the ledger. */
  lemma LedgerMoves(s: System, e: Event)
    ensures var now, was := Next(s, e).db.ledger, s.db.ledger;
            || now == was
            || (exists row :: now == was + [row])
            || (e.Delete? && now == UnlinkedAll(was, e.id))
  {
    match e {
      case Begin(w, id, quotas, gateAt, started) =>
      case Finish(w, reply) =>
        if w in s.jobs && s.jobs[w].Transcription? {
          var now := FinishJob(s.db, s.jobs[w], reply).0.ledger;
          assert now == s.db.ledger || now == s.db.ledger + [now[|s.db.ledger|]];
        }
      case EndSummary(w, started, outcome) =>
        if w in s.jobs && s.jobs[w].Summary? {
          var now := FinishSummary(s.db, s.jobs[w], started, outcome).ledger;
          assert now == s.db.ledger || now == s.db.ledger + [now[|s.db.ledger|]];
        }
      case Delete(id) =>
        assert Next(s, e).db.ledger == UnlinkedAll(s.db.ledger, id);
      case _ =>
    }
  }

  /** At a fixed instant usage never falls: deleting, replacing, retrying or moving resets nothing. */
  lemma {:induction false} UsageCannotBeReset(s: System, events: seq<Event>, workspace: Id, since: real)
    ensures UsedSeconds(Run(s, events).db.ledger, workspace, since) >= UsedSeconds(s.db.ledger, workspace, since)
  {
    if events != [] {
      var before, e := Run(s, events[..|events| - 1]), events[|events| - 1];
      UsageCannotBeReset(s, events[..|events| - 1], workspace, since);
      LedgerMoves(before, e);
      var now, was := Next(before, e).db.ledger, before.db.ledger;
      if now == was {
      } else if row :| now == was + [row] {
        UsedSecondsOfAppend(was, row, workspace, since);
      } else {
        UsedSecondsOfUnlinked(was, e.id, workspace, since);
      }
    }
  }
}
