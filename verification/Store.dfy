/** The database and the operations that update it in place. Each method is one transaction, or a loop of
    them, and leaves the state its specification function says. */
module Store {
  import opened Records
  import opened Ingest
  import opened Quota
  import opened Protocol
  import opened Claim
  import opened Scan
  import opened Turns

  /** What `measure` returns for a workspace. */
  datatype Usage = Usage(usedMinutes: real, quota: Option<int>)

  /** How many rows one `UPDATE` of the maintenance touches. */
  const CHUNK: nat := 200

  predicate Blocked(r: Recording) {
    r.status == QuotaBlocked && r.pathCurrent
  }

  function Measure(ledger: seq<LedgerRow>, quotas: Quotas, workspace: Id, now: real): Option<Usage> {
    if workspace !in quotas then None
    else Some(Usage(UsedSeconds(ledger, workspace, now - WINDOW) / 60.0, quotas[workspace]))
  }

  function Resumed(r: Recording): Recording {
    if InFlight(r.status) && r.pathCurrent then r.(status := ResumeStatus(r)) else r
  }

  function Requeued(r: Recording): Recording {
    r.(status := CaseStatus(r))
  }

  predicate Ascending(ids: seq<Id>) {
    forall j, k | 0 <= j < k < |ids| :: ids[j] < ids[k]
  }

  /** The rows are all there, held by the quota, and in order. */
  predicate BlockedRows(recs: Table, rows: seq<Id>) {
    Ascending(rows) && forall k | 0 <= k < |rows| :: rows[k] in recs && Blocked(recs[rows[k]])
  }

  /** The rows the gate lets through, each asked for itself. */
  function Passing(db: Db, quotas: Quotas, now: real, rows: seq<Id>): seq<Id>
    requires BlockedRows(db.recordings, rows)
  {
    if rows == [] then []
    else
      var rest, last := Passing(db, quotas, now, rows[..|rows| - 1]), rows[|rows| - 1];
      if Releasable(db, quotas, now, db.recordings[last]) then rest + [last] else rest
  }

  lemma {:induction false} PassingPicks(db: Db, quotas: Quotas, now: real, rows: seq<Id>, id: Id)
    requires BlockedRows(db.recordings, rows)
    ensures id in Passing(db, quotas, now, rows) <==> id in rows && Releasable(db, quotas, now, db.recordings[id])
  {
    if rows != [] {
      var first, last := rows[..|rows| - 1], rows[|rows| - 1];
      PassingPicks(db, quotas, now, first, id);
      assert rows == first + [last];
    }
  }

  lemma {:induction false} PassingAscends(db: Db, quotas: Quotas, now: real, rows: seq<Id>)
    requires BlockedRows(db.recordings, rows)
    ensures Ascending(Passing(db, quotas, now, rows))
    ensures forall k | 0 <= k < |Passing(db, quotas, now, rows)| ::
          rows != [] && Passing(db, quotas, now, rows)[k] <= rows[|rows| - 1]
  {
    if rows != [] {
      PassingAscends(db, quotas, now, rows[..|rows| - 1]);
    }
  }

  lemma RowsAfterDelete(db: Db, id: Id, left: Table)
    requires left.Keys == db.recordings.Keys - {id}
    requires forall i | i in left :: left[i] == Orphaned(db.recordings[i], id)
    ensures left == DeleteRecording(db, id).recordings
    ensures forall i | i in left :: left[i].duplicateOf != Some(id)
  {
  }

  class Archive {
    var recordings: Table
    var nextId: Id
    var ledger: seq<LedgerRow>
    var issued: seq<real>
    var stamps: Stamps

    ghost function View(): Db
      reads this
    {
      Db(recordings, nextId, ledger, issued)
    }

    constructor (workspaces: Stamps)
      ensures View() == INITIAL.db && stamps == workspaces
    {
      recordings, nextId, ledger, issued, stamps := map[], 0, [], [], workspaces;
    }

    /* ---------- the worker ---------- */

    method ClaimNextRecording(lockedW: set<Id>, lockedR: set<Id>, now: real, hiW: Id) returns (found: Option<Id>)
      requires Eligible(recordings) <= stamps.Keys
      modifies this`stamps
      ensures (found, stamps) == ClaimNext(recordings, old(stamps), lockedW, lockedR, now, hiW, nextId)
    {
      var eligible := Eligible(recordings);
      if eligible == {} {
        return None;
      }
      if |eligible| == 1 {
        var only :| only in eligible;
        OnlyOne(eligible, only);
        found := ClaimInWorkspace(recordings, only, lockedR, nextId);
        return;
      }
      var open := eligible - lockedW;
      for round := 0 to |eligible|
        invariant open <= stamps.Keys
        invariant ClaimNext(recordings, old(stamps), lockedW, lockedR, now, hiW, nextId)
               == ClaimRounds(recordings, stamps, open, lockedR, now, |eligible| - round, hiW, nextId)
      {
        var workspace := Leading(stamps, open, hiW);
        if workspace.None? {
          return None;
        }
        stamps := stamps[workspace.value := Some(now)];
        found := ClaimInWorkspace(recordings, workspace.value, lockedR, nextId);
        if found.Some? {
          return;
        }
      }
      return None;
    }

    method BeginStage(id: Id, quotas: Quotas, gateAt: real, started: real) returns (job: Option<Job>)
      requires id in recordings && Claimable(recordings[id])
      modifies this`recordings, this`issued
      ensures (View(), job) == BeginJob(old(View()), id, quotas, gateAt, started)
    {
      var r := recordings[id];
      if r.status == Enriching {
        recordings := recordings[id := r.(status := Summarizing)];
        return Some(Summary(id, r.workspace, if r.error == DiarizeFailed then DiarizeFailed else NoError));
      }
      var verdict := TranscriptionBlock(ledger, quotas, r.workspace, r.duration, gateAt);
      if verdict == DurationUnknown {
        recordings := recordings[id := r.(status := Failed, error := OtherError)];
        return None;
      }
      if verdict == Exceeded {
        recordings := recordings[id := r.(status := QuotaBlocked)];
        return None;
      }
      if r.requestId.None? {
        r := r.(requestId := Some(|issued|), runnerStartedAt := Some(started));
        issued := issued + [started];
      }
      var base := if r.runnerStartedAt.Some? then r.runnerStartedAt.value else started;
      job := Some(Transcription(id, r.requestId.value, started, base, r.workspace, r.duration, JobTimeout(r.duration)));
      r := r.(status := Transcribing);
      recordings := recordings[id := r];
    }

    /** The worker's transaction from the claim to its first commit; finding nothing rolls the stamps back. */
    method StartNextRecording(lockedW: set<Id>, lockedR: set<Id>, now: real, hiW: Id, quotas: Quotas, gateAt: real,
          started: real)
      returns (found: Option<Id>, job: Option<Job>)
      requires Eligible(recordings) <= stamps.Keys && IdsBelow(recordings, stamps, hiW, nextId)
      modifies this`recordings, this`issued, this`stamps
      ensures Started(View(), stamps, found, job)
           == StartNext(old(View()), old(stamps), lockedW, lockedR, now, hiW, quotas, gateAt, started)
    {
      var saved := stamps;
      job := None;
      found := ClaimNextRecording(lockedW, lockedR, now, hiW);
      if found.None? {
        stamps := saved;
        return;
      }
      FoundIsWork(recordings, saved, lockedW, lockedR, now, hiW, nextId);
      job := BeginStage(found.value, quotas, gateAt, started);
    }

    method LongestEnd(segments: seq<Segment>) returns (end: Seconds)
      ensures end == LastEnd(segments)
    {
      end := 0.0;
      for i := 0 to |segments|
        invariant end == LastEnd(segments[..i])
      {
        assert segments[..i + 1][..i] == segments[..i];
        if segments[i].endSec > end {
          end := segments[i].endSec;
        }
      }
      assert segments[..|segments|] == segments;
    }

    method StoreReply(job: Job, reply: Reply) returns (next: Option<Job>)
      requires job.Transcription?
      modifies this`recordings, this`ledger
      ensures (View(), next) == FinishJob(old(View()), job, reply)
    {
      var id := job.recording;
      next := None;
      if !Holds(Db(recordings, nextId, ledger, issued), job) {
        if reply.Transcribed? {
          if id in recordings {
            ledger := ledger + [Entry(job, Some(id), false, recordings[id].duration)];
          } else {
            ledger := ledger + [Entry(job, None, true, job.declared)];
          }
        }
        return;
      }
      var r := recordings[id];
      match reply {
        case Transcribed(segments, meta, diarizeFailed) =>
          r := r.(segments := segments, sttMeta := Some(meta));
          var heard := LongestEnd(segments);
          if heard > (if r.duration.Some? then r.duration.value else 0.0) {
            r := r.(duration := Some(heard));
          }
          r := r.(error := if diarizeFailed then DiarizeFailed else NoError);
          r := r.(status := Summarizing, requestId := None, runnerStartedAt := None);
          recordings := recordings[id := r];
          ledger := ledger + [Entry(job, Some(id), true, r.duration)];
          next := Some(Summary(id, job.workspace, r.error));
        case Unreachable =>
          recordings := recordings[id := r.(status := Pending)];
        case _ =>
          r := r.(status := Failed, error := if reply.Changed? then SourceChanged else OtherError);
          r := r.(requestId := None, runnerStartedAt := None);
          recordings := recordings[id := r];
          ledger := ledger + [Entry(job, Some(id), false, r.duration)];
      }
    }

    method EndSummaryStage(job: Job, started: real, outcome: SummaryOutcome)
      requires job.Summary?
      modifies this`recordings, this`ledger
      ensures View() == FinishSummary(old(View()), job, started, outcome)
    {
      var id := job.recording;
      if id !in recordings {
        return;
      }
      var r := recordings[id];
      match outcome {
        case Summarized(title, summary) =>
          if r.title.None? && title != "" {
            r := r.(title := Some(title));
          }
          if summary != "" {
            r := r.(summary := Some(summary));
          }
          r := r.(error := job.carried);
          ledger := ledger + [SummaryEntry(job, started, outcome, r.duration)];
        case BlankTranscript =>
          r := r.(summary := Some(""), error := job.carried);
          ledger := ledger + [SummaryEntry(job, started, outcome, r.duration)];
        case SummaryFailed =>
          r := r.(error := OtherError);
          ledger := ledger + [SummaryEntry(job, started, outcome, r.duration)];
        case NoEnricher =>
      }
      r := r.(status := if r.pathCurrent then Done else Missing);
      recordings := recordings[id := r];
    }

    /* ---------- maintenance ---------- */

    /** `stale` are the rows whose last update is old; those no longer in flight are left alone. */
    method RecoverInFlight(stale: seq<Id>)
      modifies this`recordings
      ensures View() == Recovered(old(View()), IdSet(stale))
    {
      for k := 0 to |stale|
        invariant recordings.Keys == old(recordings).Keys
        invariant forall id | id in recordings ::
            recordings[id] == if id in stale[..k] then Resumed(old(recordings)[id]) else old(recordings)[id]
      {
        var id := stale[k];
        assert stale[..k + 1] == stale[..k] + [id];
        if id in recordings && InFlight(recordings[id].status) && recordings[id].pathCurrent {
          recordings := recordings[id := recordings[id].(status := ResumeStatus(recordings[id]))];
        }
      }
      assert stale[..|stale|] == stale;
      assert recordings == Recovered(old(View()), IdSet(stale)).recordings;
    }

    /** The held-back rows that pass now, with one measurement per workspace. */
    method HeldByQuota() returns (rows: seq<Id>)
      requires forall id | id in recordings :: id < nextId
      ensures BlockedRows(recordings, rows)
      ensures forall id | id in recordings && Blocked(recordings[id]) :: id in rows
    {
      rows := RowsWhere(recordings, nextId, Blocked);
      assert forall k | 0 <= k < |rows| :: rows[k] in rows;
    }

    method PickReleasable(quotas: Quotas, now: real) returns (freed: seq<Id>)
      requires forall id | id in recordings :: id < nextId
      ensures Ascending(freed)
      ensures forall id :: id in freed <==> id in recordings && Releasable(View(), quotas, now, recordings[id])
    {
      var rows := HeldByQuota();
      var usages: map<Id, Option<Usage>> := map[];
      freed := [];
      for k := 0 to |rows|
        invariant forall w | w in usages :: usages[w] == Measure(ledger, quotas, w, now)
        invariant freed == Passing(View(), quotas, now, rows[..k])
      {
        assert rows[..k + 1][..k] == rows[..k];
        var id := rows[k];
        var workspace := recordings[id].workspace;
        if workspace !in usages {
          usages := usages[workspace := Measure(ledger, quotas, workspace, now)];
        }
        var usage := usages[workspace];
        if usage.None? || CheckMinutes(usage.value.quota, usage.value.usedMinutes, recordings[id].duration) == Allowed {
          freed := freed + [id];
        }
      }
      assert rows[..|rows|] == rows;
      PassingAscends(View(), quotas, now, rows);
      forall id
        ensures id in freed <==> id in recordings && Releasable(View(), quotas, now, recordings[id])
      {
        PassingPicks(View(), quotas, now, rows, id);
      }
    }

    /** Rows are sent back to the queue two hundred at a time. */
    method ResumeInChunks(ids: seq<Id>)
      modifies this`recordings
      ensures recordings.Keys == old(recordings).Keys
      ensures forall id | id in recordings ::
          recordings[id] == if id in ids then Requeued(old(recordings)[id]) else old(recordings)[id]
    {
      var start := 0;
      while start < |ids|
        invariant start <= |ids|
        invariant recordings.Keys == old(recordings).Keys
        invariant forall id | id in recordings ::
            recordings[id] == if id in ids[..start] then Requeued(old(recordings)[id]) else old(recordings)[id]
      {
        var end := if start + CHUNK < |ids| then start + CHUNK else |ids|;
        var chunk := ids[start..end];
        recordings := map id | id in recordings :: if id in chunk then Requeued(recordings[id]) else recordings[id];
        assert ids[..end] == ids[..start] + chunk;
        start := end;
      }
      assert ids[..|ids|] == ids;
    }

    /** What comes out of the memo and the chunks is the rule for a single row. */
    method ReleaseQuotaBlocked(quotas: Quotas, now: real) returns (count: nat)
      requires forall id | id in recordings :: id < nextId
      modifies this`recordings
      ensures View() == ReleaseBlocked(old(View()), quotas, now)
      ensures count == |set id | id in old(recordings) && Releasable(old(View()), quotas, now, old(recordings)[id])|
    {
      var freed := PickReleasable(quotas, now);
      DistinctSize(freed);
      assert IdSet(freed) == set id | id in recordings && Releasable(View(), quotas, now, recordings[id]);
      count := |freed|;
      ResumeInChunks(freed);
      assert recordings == ReleaseBlocked(old(View()), quotas, now).recordings;
    }

    /** `UPDATE … WHERE duplicate_of_id = id AND status = 'duplicate'`: afterwards no duplicate points at `id`, each
        that did can be claimed while its path is current, and nothing else about any row has changed. */
    method ReviveDuplicates(id: Id)
      modifies this`recordings
      ensures recordings.Keys == old(recordings).Keys
      ensures forall i | i in recordings :: recordings[i].status == Duplicate ==> recordings[i].duplicateOf != Some(id)
      ensures forall i | i in recordings && recordings[i] != old(recordings)[i] ::
          && old(recordings)[i].status == Duplicate && old(recordings)[i].duplicateOf == Some(id)
          && (recordings[i].pathCurrent ==> Claimable(recordings[i]))
          && recordings[i].status == Pending && recordings[i].duplicateOf.None?
          && old(recordings)[i] == recordings[i].(status := Duplicate, duplicateOf := Some(id))
    {
      recordings := map i | i in recordings ::
        if recordings[i].duplicateOf == Some(id) && recordings[i].status == Duplicate
        then recordings[i].(duplicateOf := None, status := Pending) else recordings[i];
    }

    /** The row goes, and `duplicate_of_id` of what refers to it becomes null. */
    method DropRow(id: Id)
      modifies this`recordings
      ensures recordings.Keys == old(recordings).Keys - {id}
      ensures forall i | i in recordings ::
          recordings[i] == var r := old(recordings)[i];
                           if r.duplicateOf == Some(id) then r.(duplicateOf := None) else r
    {
      recordings := recordings - {id};
      recordings := map i | i in recordings ::
        if recordings[i].duplicateOf == Some(id) then recordings[i].(duplicateOf := None) else recordings[i];
    }

    /** `job_log.recording_id` becomes null, row by row. */
    method UnlinkRows(id: Id)
      modifies this`ledger
      ensures ledger == UnlinkedAll(old(ledger), id)
    {
      for k := 0 to |ledger|
        invariant |ledger| == |old(ledger)|
        invariant forall j | 0 <= j < |ledger| ::
            ledger[j] == if j < k then Unlinked(old(ledger)[j], id) else old(ledger)[j]
      {
        if ledger[k].recording == Some(id) {
          ledger := ledger[k := ledger[k].(recording := None)];
        }
      }
    }

    /** First the duplicates are revived, then the row goes and the foreign keys empty what still refers to it:
        afterwards no recording and no ledger row does, and the ledger is otherwise as it was. */
    method DeleteRow(id: Id)
      modifies this`recordings, this`ledger
      ensures View() == DeleteRecording(old(View()), id)
      ensures id !in recordings && forall i | i in recordings :: recordings[i].duplicateOf != Some(id)
      ensures forall k | 0 <= k < |ledger| :: ledger[k].recording != Some(id)
    {
      ghost var db := View();
      ReviveDuplicates(id);
      DropRow(id);
      RowsAfterDelete(db, id, recordings);
      UnlinkRows(id);
    }

    /* ---------- files ---------- */

    method PlaceFile(fs: FileSystem, path: Path, workspace: Id, source: Source) returns (id: Id, outcome: Outcome)
      requires path in fs
      modifies this`recordings, this`nextId
      ensures Ingested(View(), id, outcome) == Place(old(View()), fs, path, workspace, source)
    {
      var file := fs[path];
      var db := Db(recordings, nextId, ledger, issued);
      var moved := FindMoved(db, fs, file.hash, workspace);
      if moved.Some? {
        id, outcome := moved.value, Moved;
        var r := recordings[id];
        r := r.(path := path, partialHash := file.partialHash, pathCurrent := true);
        r := r.(signature := Some(file.signature), duration := file.duration);
        if file.nameDate.Some? {
          r := r.(recordedAt := file.nameDate);
        }
        r := r.(status := ResumeStatus(r));
        recordings := recordings[id := r];
        return;
      }
      var original := FindOriginal(db, fs, file, workspace);
      id, outcome := nextId, if original.Some? then Duplicated else New;
      recordings := recordings[id := Registered(path, file, workspace, source, original)];
      nextId := nextId + 1;
    }

    /** `None` when the file is refused; nothing has changed then. */
    method RegisterFile(fs: FileSystem, path: Path, workspace: Id, source: Source, verifyExisting: bool)
      returns (result: Option<(Id, Outcome)>)
      modifies this`recordings, this`nextId
      ensures var spec := IngestFile(old(View()), fs, path, workspace, source, verifyExisting);
              if spec.Ingested? then spec.db == View() && result == Some((spec.id, spec.outcome))
              else View() == old(View()) && result == None
    {
      if path !in fs {
        return None;
      }
      var file := fs[path];
      var existing := CurrentAt(Db(recordings, nextId, ledger, issued), path);
      if existing.Some? {
        var id := existing.value;
        var r := recordings[id];
        if r.workspace != workspace || r.source != source {
          return None;
        }
        if !verifyExisting && r.contentHash.Some? && r.signature == Some(file.signature) && r.status != Missing {
          return Some((id, Existing));
        }
        if SameContent(r, file) {
          r := r.(signature := Some(file.signature), contentHash := Some(file.hash), duration := file.duration);
          var outcome := Existing;
          if r.status == Missing {
            r := r.(status := ResumeStatus(r));
            outcome := Reappeared;
          } else if r.error == SourceChanged {
            r := r.(status := ResumeStatus(r), error := NoError);
          }
          recordings := recordings[id := r];
          return Some((id, outcome));
        }
        if source != Scanned {
          return None;
        }
        recordings := recordings[id := LetGo(r)];
      }
      var id, outcome := PlaceFile(fs, path, workspace, source);
      result := Some((id, outcome));
    }

    /** One root: every path of the listing inside the root and not seen before. */
    method VisitRoot(fs: FileSystem, base: Path, listing: seq<Path>, seen: seq<Path>, stats: Stats, workspace: Id,
          ghost before: Db)
      returns (seen': seq<Path>, stats': Stats)
      requires (View(), stats) == VisitAll(before, fs, seen, workspace)
      modifies this`recordings, this`nextId
      ensures seen' == Fresh(base, listing, seen)
      ensures (View(), stats') == VisitAll(before, fs, seen', workspace)
    {
      seen', stats' := seen, stats;
      for k := 0 to |listing|
        invariant seen' == Fresh(base, listing[..k], seen)
        invariant (View(), stats') == VisitAll(before, fs, seen', workspace)
      {
        assert listing[..k + 1][..k] == listing[..k];
        var path := listing[k];
        if base <= path && path !in seen' {
          assert (seen' + [path])[..|seen'|] == seen';
          seen' := seen' + [path];
          var result := RegisterFile(fs, path, workspace, Scanned, true);
          if result.Some? {
            stats' := Counted(stats', result.value.1);
          }
        }
      }
      assert listing[..|listing|] == listing;
    }

    method ScanAll(fs: FileSystem, walks: seq<Walk>, stat: Path -> DirStat, workspace: Id) returns (stats: Stats)
      modifies this`recordings, this`nextId
      ensures (View(), stats) == ScanFolders(old(View()), fs, walks, stat, workspace)
    {
      var seen: seq<Path> := [];
      stats := NOTHING;
      for k := 0 to |walks|
        invariant seen == ToVisit(walks[..k])
        invariant (View(), stats) == VisitAll(old(View()), fs, seen, workspace)
      {
        assert walks[..k + 1][..k] == walks[..k];
        seen, stats := VisitRoot(fs, walks[k].base, walks[k].listing, seen, stats, workspace, old(View()));
      }
      assert walks[..|walks|] == walks;
      ghost var visited := View();
      var gone := ToSweep(recordings, walks, stat, PathSet(seen), workspace);
      recordings := map id | id in recordings :: if id in gone then recordings[id].(status := Missing)
            else recordings[id];
      assert recordings == Swept(visited, gone).recordings;
      stats := stats.(missing := |gone|);
    }
  }
}
