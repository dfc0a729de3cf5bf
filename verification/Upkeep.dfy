/** What each maintenance step does to each row: which ones it touches, and what it changes of them. */
module Upkeep {
  import opened Records
  import opened Quota
  import opened Protocol
  import opened Safety
  import opened Attempts
  import opened Placing
  import Guarantees

  /** A stopped stage of a row that recovery was told about. */
  predicate Stopped(r: Recording, id: Id, stale: set<Id>) {
    id in stale && r.pathCurrent && r.status in {Transcribing, Diarizing, Summarizing}
  }

  /** Failed, and in the workspace asked for, if one was. */
  predicate FailedIn(r: Recording, scope: Option<Id>) {
    r.pathCurrent && r.status == Failed && (scope == None || scope == Some(r.workspace))
  }

  /** Finished, with a transcript, and no summary was ever stored. */
  predicate LacksSummary(r: Recording) {
    r.pathCurrent && r.status == Done && r.summary.None? && (r.sttMeta.Some? || r.segments != [])
  }

  predicate WaitsForQuota(r: Recording) {
    r.pathCurrent && r.status == QuotaBlocked
  }

  /** The rows a step is for. */
  predicate IsFor(s: System, e: Event, id: Id)
    requires Maintenance(e) && id in s.db.recordings
  {
    var r := s.db.recordings[id];
    match e
    case Recover(stale) => Stopped(r, id, stale)
    case RetryAll(scope) => FailedIn(r, scope)
    case RetryOne(i) => i == id && FailedIn(r, None)
    case Requeue => LacksSummary(r)
    case Release(quotas, now) => WaitsForQuota(r) && Fits(s.db.ledger, quotas, r, now)
    case Sweep(gone) => id in gone
    case Backfill(i, hash) => i == id && r.pathCurrent && r.contentHash.None?
  }

  /** What it makes of such a row. Only a retry takes the note away, and only a backfill touches more than the status:
      it adds the hash that was missing. */
  predicate Made(e: Event, before: Recording, after: Recording)
    requires Maintenance(e)
  {
    match e
    case Recover(_) => SameButStatus(before, after) && StatusFits(after)
    case RetryAll(_) => SameButStatus(before.(error := NoError), after) && StatusFits(after)
    case RetryOne(_) => SameButStatus(before.(error := NoError), after) && StatusFits(after)
    case Requeue => SameButStatus(before, after) && after.status == Enriching
    case Release(_, _) => SameButStatus(before, after) && StatusFits(after)
    case Sweep(_) => SameButStatus(before, after) && after.status == Missing
    case Backfill(_, hash) => after == before.(contentHash := Some(hash))
  }

  lemma ReleaseAsks(db: Db, quotas: Quotas, now: real, r: Recording)
    ensures Releasable(db, quotas, now, r) <==> WaitsForQuota(r) && Fits(db.ledger, quotas, r, now)
  {
    GateAsks(db, quotas, r, now);
  }

  lemma StepTouches(s: System, e: Event, id: Id)
    requires Maintenance(e) && id in s.db.recordings && RowOk(s.db.recordings[id], s.db.issued)
    ensures var recs := Next(s, e).db.recordings;
            && id in recs
            && if IsFor(s, e, id) then Made(e, s.db.recordings[id], recs[id]) else recs[id] == s.db.recordings[id]
  {
    if e.Release? {
      ReleaseAsks(s.db, e.quotas, e.now, s.db.recordings[id]);
    }
  }

  lemma StepKeepsTheRest(s: System, e: Event)
    requires Maintenance(e)
    ensures var s' := Next(s, e);
            s'.jobs == s.jobs && s'.db == s.db.(recordings := s'.db.recordings)
            && s'.db.recordings.Keys == s.db.recordings.Keys
  {
  }

  /** In every run a maintenance step makes of the rows it is for what it should, leaves every other row as it is, and
      touches neither the ledger nor any worker. */
  lemma {:induction false} MaintenanceTouches(events: seq<Event>, e: Event, id: Id)
    requires Maintenance(e)
    ensures var s := Run(INITIAL, events);
            var s' := Next(s, e);
            && s'.jobs == s.jobs && s'.db == s.db.(recordings := s'.db.recordings)
            && s'.db.recordings.Keys == s.db.recordings.Keys
            && (id in s.db.recordings ==>
                  if IsFor(s, e, id) then Made(e, s.db.recordings[id], s'.db.recordings[id])
                  else s'.db.recordings[id] == s.db.recordings[id])
  {
    Guarantees.Reachable(events);
    var s := Run(INITIAL, events);
    StepKeepsTheRest(s, e);
    if id in s.db.recordings {
      StepTouches(s, e, id);
    }
  }

  /** The bulk updates decide as the single ones do on every row that is no duplicate. */
  lemma CaseAgrees(r: Recording)
    requires r.duplicateOf.None?
    ensures CaseStatus(r) == ResumeStatus(r) && StatusFits(r.(status := CaseStatus(r)))
  {
  }

  /* ---------- deleting ---------- */

  /** A row that pointed at the deleted one points nowhere, and waits to be transcribed itself if it was a duplicate. */
  predicate LeftBy(gone: Id, before: Recording, after: Recording) {
    if before.duplicateOf == Some(gone)
    then && SameButStatus(before.(duplicateOf := None), after)
         && after.status == (if before.status == Duplicate then Pending else before.status)
    else after == before
  }

  /** A row of the history keeps all it says but the link. */
  predicate UnlinkedFrom(gone: Id, before: LedgerRow, after: LedgerRow) {
    after == if before.recording == Some(gone) then before.(recording := None) else before
  }

  lemma DeletingTouches(s: System, gone: Id, id: Id, k: nat)
    ensures var s' := Next(s, Delete(gone));
            && s'.jobs == s.jobs && s'.db.nextId == s.db.nextId && s'.db.issued == s.db.issued
            && s'.db.recordings.Keys == s.db.recordings.Keys - {gone}
            && (id in s'.db.recordings ==> LeftBy(gone, s.db.recordings[id], s'.db.recordings[id]))
            && |s'.db.ledger| == |s.db.ledger|
            && (k < |s.db.ledger| ==> UnlinkedFrom(gone, s.db.ledger[k], s'.db.ledger[k]))
  {
  }
}
