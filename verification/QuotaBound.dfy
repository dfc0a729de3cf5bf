/** The rolling quota over whole runs: one worker, one workspace with a fixed quota, any mixture of
    crashes, recoveries, replaced and deleted files. */
module QuotaBound {
  import opened Records
  import opened Ingest
  import opened Quota
  import opened Protocol
  import opened Safety
  import opened Guarantees

  predicate Bill(row: LedgerRow, workspace: Id) {
    row.workspace == workspace && row.stage == TranscribeStage && row.succeeded
  }

  function Declared(row: LedgerRow): Seconds {
    if row.declared.Some? then row.declared.value else 0.0
  }

  function Ceiling(quota: int): Seconds {
    if quota > 0 then 60.0 * quota as real else 0.0
  }

  /** The lengths declared at admission, over the bills since an instant. */
  function DeclaredSeconds(ledger: seq<LedgerRow>, workspace: Id, since: real): Seconds {
    if ledger == [] then 0.0
    else
      var last := ledger[|ledger| - 1];
      DeclaredSeconds(ledger[..|ledger| - 1], workspace, since)
      + if Counts(last, workspace, since) then Declared(last) else 0.0
  }

  /** What the last bill of positive declared length was charged beyond its declaration, and whatever
      recordings of declared length zero were charged after it. */
  function Overrun(ledger: seq<LedgerRow>, workspace: Id, since: real): real {
    if ledger == [] then 0.0
    else
      var last, rest := ledger[|ledger| - 1], ledger[..|ledger| - 1];
      if !Counts(last, workspace, since) then Overrun(rest, workspace, since)
      else if Declared(last) > 0.0 then Charge(last) - Declared(last)
      else Overrun(rest, workspace, since) + Charge(last)
  }

  /** What the gate found when it let this length through at `started`. */
  predicate Admitted(ledger: seq<LedgerRow>, workspace: Id, quota: int, started: real, length: Seconds) {
    length > 0.0 ==> UsedSeconds(ledger, workspace, started - WINDOW) + length <= Ceiling(quota)
  }

  /** Bills are in order of admission and each was admitted against the ones before it. */
  predicate Books(ledger: seq<LedgerRow>, workspace: Id, quota: int, clock: real) {
    ledger == [] ||
    (var last, rest := ledger[|ledger| - 1], ledger[..|ledger| - 1];
     if Bill(last, workspace) then
       && last.startedAt <= clock
       && Admitted(rest, workspace, quota, last.startedAt, Declared(last))
       && Books(rest, workspace, quota, last.startedAt)
     else Books(rest, workspace, quota, clock))
  }

  /* ---------- what the books say about any window ---------- */

  lemma {:induction false} UsageWithinQuota(ledger: seq<LedgerRow>, workspace: Id, quota: int, clock: real, since: real)
    requires Books(ledger, workspace, quota, clock)
    requires since >= clock - WINDOW
    ensures UsedSeconds(ledger, workspace, since) <= Ceiling(quota) + Overrun(ledger, workspace, since)
  {
    if ledger != [] {
      var last, rest := ledger[|ledger| - 1], ledger[..|ledger| - 1];
      if Bill(last, workspace) {
        UsageWithinQuota(rest, workspace, quota, last.startedAt, since);
        UsedSecondsShrinks(rest, workspace, last.startedAt - WINDOW, since);
      } else {
        UsageWithinQuota(rest, workspace, quota, clock, since);
      }
    }
  }

  predicate ChargedInFull(ledger: seq<LedgerRow>, workspace: Id) {
    forall k | 0 <= k < |ledger| :: Bill(ledger[k], workspace) ==> Declared(ledger[k]) <= Charge(ledger[k])
  }

  lemma {:induction false} DeclaredAtMostUsed(ledger: seq<LedgerRow>, workspace: Id, since: real)
    requires ChargedInFull(ledger, workspace)
    ensures DeclaredSeconds(ledger, workspace, since) <= UsedSeconds(ledger, workspace, since)
  {
    if ledger != [] {
      DeclaredAtMostUsed(ledger[..|ledger| - 1], workspace, since);
    }
  }

  lemma {:induction false} DeclaredWithinQuota(ledger: seq<LedgerRow>, workspace: Id, quota: int, clock: real,
        since: real)
    requires Books(ledger, workspace, quota, clock) && ChargedInFull(ledger, workspace)
    requires since >= clock - WINDOW
    ensures DeclaredSeconds(ledger, workspace, since) <= Ceiling(quota)
  {
    if ledger != [] {
      var last, rest := ledger[|ledger| - 1], ledger[..|ledger| - 1];
      if Bill(last, workspace) {
        DeclaredWithinQuota(rest, workspace, quota, last.startedAt, since);
        DeclaredAtMostUsed(rest, workspace, since);
        UsedSecondsShrinks(rest, workspace, last.startedAt - WINDOW, since);
      } else {
        DeclaredWithinQuota(rest, workspace, quota, clock, since);
      }
    }
  }

  /** A recording of length zero passes even an exhausted quota, whatever it turns out to hold: this is
      why `Overrun` reaches past it. */
  lemma ZeroLengthPassesAnExhaustedQuota(quota: int, usedMinutes: real, length: Seconds)
    requires usedMinutes >= quota as real
    ensures CheckMinutes(Some(quota), usedMinutes, Some(length)) == Allowed <==> length == 0.0
  {
  }

  /* ---------- runs ---------- */

  /** The probed length is a function of content. */
  type Probe = Hash -> Option<Seconds>

  function StartOf(events: seq<Event>): real {
    if events == [] then 0.0
    else if events[|events| - 1].Begin? then events[|events| - 1].started
    else StartOf(events[..|events| - 1])
  }

  predicate EventFits(e: Event, workspace: Id, quota: int, probe: Probe) {
    && (e.Begin? ==>
          && e.worker == 0
          && e.gateAt <= e.started
          && workspace in e.quotas
          && e.quotas[workspace] == Some(quota))
    && (e.Register? ==> forall p | p in e.fs :: e.fs[p].duration == probe(e.fs[p].hash))
  }

  /** One worker, a clock that does not run backwards, the workspace's quota fixed. */
  predicate Orderly(events: seq<Event>, workspace: Id, quota: int, probe: Probe) {
    events == [] ||
    (var last, rest := events[|events| - 1], events[..|events| - 1];
     && EventFits(last, workspace, quota, probe)
     && (last.Begin? ==> StartOf(rest) <= last.started)
     && Orderly(rest, workspace, quota, probe))
  }

  predicate RowProbed(r: Recording, probe: Probe) {
    r.contentHash.Some? && (!HasTranscript(r) ==> r.duration == probe(r.contentHash.value))
  }

  predicate Probed(db: Db, probe: Probe) {
    forall id | id in db.recordings :: RowProbed(db.recordings[id], probe)
  }

  predicate JobFits(db: Db, job: Job, workspace: Id, quota: int, clock: real, probe: Probe) {
    job.Transcription? ==>
      && (job.workspace == workspace ==>
            && job.started <= clock
            && Books(db.ledger, workspace, quota, job.started)
            && Admitted(db.ledger, workspace, quota, job.started,
                        if job.declared.Some? then job.declared.value else 0.0))
      && (job.recording in db.recordings && db.recordings[job.recording].contentHash.Some? ==>
            job.declared == probe(db.recordings[job.recording].contentHash.value))
  }

  predicate Fits(s: System, workspace: Id, quota: int, clock: real, probe: Probe) {
    && s.jobs.Keys <= {0}
    && Probed(s.db, probe)
    && Books(s.db.ledger, workspace, quota, clock)
    && ChargedInFull(s.db.ledger, workspace)
    && (0 in s.jobs ==> JobFits(s.db, s.jobs[0], workspace, quota, clock, probe))
  }

  lemma {:induction false} BooksAge(ledger: seq<LedgerRow>, workspace: Id, quota: int, clock: real, later: real)
    requires Books(ledger, workspace, quota, clock) && clock <= later
    ensures Books(ledger, workspace, quota, later)
  {
    if ledger != [] && !Bill(ledger[|ledger| - 1], workspace) {
      BooksAge(ledger[..|ledger| - 1], workspace, quota, clock, later);
    }
  }

  lemma {:induction false} BooksOfUnlinked(ledger: seq<LedgerRow>, id: Id, workspace: Id, quota: int, clock: real)
    requires Books(ledger, workspace, quota, clock)
    ensures Books(UnlinkedAll(ledger, id), workspace, quota, clock)
  {
    if ledger != [] {
      var n := |ledger| - 1;
      var last := ledger[n];
      BooksOfUnlinked(ledger[..n], id, workspace, quota, if Bill(last, workspace) then last.startedAt else clock);
      UsedSecondsOfUnlinked(ledger[..n], id, workspace, last.startedAt - WINDOW);
      assert UnlinkedAll(ledger, id)[..n] == UnlinkedAll(ledger[..n], id);
    }
  }

  lemma BooksOfAppend(ledger: seq<LedgerRow>, row: LedgerRow, workspace: Id, quota: int, clock: real)
    requires Books(ledger, workspace, quota, clock) && ChargedInFull(ledger, workspace)
    requires Bill(row, workspace) ==>
               && row.startedAt == clock
               && Admitted(ledger, workspace, quota, clock, Declared(row))
               && Declared(row) <= Charge(row)
    ensures Books(ledger + [row], workspace, quota, clock) && ChargedInFull(ledger + [row], workspace)
  {
    assert (ledger + [row])[..|ledger|] == ledger;
  }

  /** The gate, read as an inequality between seconds. */
  lemma GateAdmits(ledger: seq<LedgerRow>, quotas: Quotas, workspace: Id, quota: int, duration: Option<Seconds>,
        gateAt: real, started: real)
    requires workspace in quotas && quotas[workspace] == Some(quota) && gateAt <= started
    requires TranscriptionBlock(ledger, quotas, workspace, duration, gateAt) == Allowed
    ensures duration.Some? && Admitted(ledger, workspace, quota, started, duration.value)
  {
    UsedSecondsShrinks(ledger, workspace, gateAt - WINDOW, started - WINDOW);
  }

  /* ---------- every step keeps the books ---------- */

  lemma PlaceKeepsProbes(db: Db, fs: FileSystem, path: Path, workspace: Id, source: Source, probe: Probe)
    requires Probed(db, probe) && path in fs && fs[path].duration == probe(fs[path].hash)
    ensures Probed(Place(db, fs, path, workspace, source).db, probe)
  {
    var moved := FindMoved(db, fs, fs[path].hash, workspace);
    if moved.Some? {
      assert RowProbed(MovedTo(db.recordings[moved.value], path, fs[path]), probe);
    } else {
      assert RowProbed(Registered(path, fs[path], workspace, source, FindOriginal(db, fs, fs[path], workspace)), probe);
    }
  }

  lemma RegisterKeepsProbes(db: Db, fs: FileSystem, path: Path, workspace: Id, source: Source, verifyExisting: bool,
        probe: Probe)
    requires Probed(db, probe) && (forall p | p in fs :: fs[p].duration == probe(fs[p].hash))
    ensures var result := IngestFile(db, fs, path, workspace, source, verifyExisting);
            result.Ingested? ==> Probed(result.db, probe)
  {
    if path in fs {
      var existing := CurrentAt(db, path);
      if existing.None? {
        PlaceKeepsProbes(db, fs, path, workspace, source, probe);
      } else {
        var r := db.recordings[existing.value];
        assert RowProbed(r, probe);
        if SameContent(r, fs[path]) {
          assert RowProbed(Refreshed(r, fs[path]), probe);
        } else {
          PlaceKeepsProbes(WithRow(db, existing.value, LetGo(r)), fs, path, workspace, source, probe);
        }
      }
    }
  }

  /** Nothing the probe says of a row has changed. */
  predicate SameProbe(a: Recording, b: Recording) {
    a.contentHash == b.contentHash && a.duration == b.duration && HasTranscript(a) == HasTranscript(b)
  }

  lemma SameProbesKeep(a: Db, b: Db, probe: Probe)
    requires Probed(a, probe)
    requires forall id | id in b.recordings :: id in a.recordings && SameProbe(a.recordings[id], b.recordings[id])
    ensures Probed(b, probe)
  {
    assert forall id | id in b.recordings :: RowProbed(a.recordings[id], probe);
  }

  /** Apart from registering files and storing a transcript, no step changes what a row was probed as. */
  lemma StepKeepsProbes(s: System, e: Event, workspace: Id, quota: int, probe: Probe)
    requires Probed(s.db, probe) && EventFits(e, workspace, quota, probe)
    ensures Probed(Next(s, e).db, probe)
  {
    match e {
      case Begin(_, _, _, _, _) => BeginKeepsProbes(s, e, probe);
      case Finish(w, reply) =>
        if w in s.jobs && s.jobs[w].Transcription? {
          ReplyKeepsProbes(s.db, s.jobs[w], reply, probe);
        }
      case EndSummary(_, _, _) => SummaryKeepsProbes(s, e, probe);
      case Register(fs, path, ws, source, verifyExisting) =>
        RegisterKeepsProbes(s.db, fs, path, ws, source, verifyExisting, probe);
      case Delete(id) => SameProbesKeep(s.db, DeleteRecording(s.db, id), probe);
      case Crash(_) =>
      case Report(_) =>
      case _ => MaintenanceKeepsProbes(s, e, probe);
    }
  }

  lemma BeginKeepsProbes(s: System, e: Event, probe: Probe)
    requires Probed(s.db, probe) && e.Begin?
    ensures Probed(Next(s, e).db, probe)
  {
    assert e.id in s.db.recordings ==> RowProbed(s.db.recordings[e.id], probe);
  }

  lemma ReplyKeepsProbes(db: Db, job: Job, reply: Reply, probe: Probe)
    requires Probed(db, probe) && job.Transcription?
    ensures Probed(FinishJob(db, job, reply).0, probe)
  {
    assert forall id | id in db.recordings :: RowProbed(db.recordings[id], probe);
  }

  lemma SummaryKeepsProbes(s: System, e: Event, probe: Probe)
    requires Probed(s.db, probe) && e.EndSummary?
    ensures Probed(Next(s, e).db, probe)
  {
    if e.worker in s.jobs && s.jobs[e.worker].Summary? {
      SameProbesKeep(s.db, FinishSummary(s.db, s.jobs[e.worker], e.started, e.outcome), probe);
    }
  }

  lemma MaintenanceKeepsProbes(s: System, e: Event, probe: Probe)
    requires Probed(s.db, probe) && Maintenance(e)
    ensures Probed(Next(s, e).db, probe)
  {
    if e.Backfill? {
      assert e.id in s.db.recordings ==> RowProbed(s.db.recordings[e.id], probe);
    } else if e.RetryOne? {
      SameProbesKeep(s.db, RetryOneFailed(s.db, e.id), probe);
    } else {
      MappingKeepsProbes(s.db, e, Next(s, e).db, probe);
    }
  }

  lemma MappingKeepsProbes(db: Db, e: Event, db': Db, probe: Probe)
    requires Probed(db, probe)
    requires match e
             case Recover(stale) => db' == Recovered(db, stale)
             case RetryAll(scope) => db' == RetryAllFailed(db, scope)
             case Requeue => db' == RequeueUnenriched(db)
             case Release(quotas, now) => db' == ReleaseBlocked(db, quotas, now)
             case Sweep(gone) => db' == Swept(db, gone)
             case _ => false
    ensures Probed(db', probe)
  {
    forall id | id in db'.recordings
      ensures id in db.recordings && SameProbe(db.recordings[id], db'.recordings[id])
    {
    }
    SameProbesKeep(db, db', probe);
  }

  /** A job's declared length stays the probed length of its recording's content. */
  lemma JobCarriesProbe(a: Db, b: Db, job: Job, probe: Probe)
    requires Continues(a, b) && JobOk(a, job) && job.Transcription? && Probed(a, probe)
    requires job.recording in a.recordings ==> job.declared == probe(a.recordings[job.recording].contentHash.value)
    ensures job.recording in b.recordings && b.recordings[job.recording].contentHash.Some? ==>
              job.declared == probe(b.recordings[job.recording].contentHash.value)
  {
    if job.recording in b.recordings {
      assert Follows(a.recordings[job.recording], b.recordings[job.recording], |a.issued|);
      assert RowProbed(a.recordings[job.recording], probe);
    }
  }

  /** A row a transcription appends keeps the books: a bill is dated and was admitted when its job started. */
  lemma RowKeepsBooks(db: Db, job: Job, row: LedgerRow, workspace: Id, quota: int, clock: real, probe: Probe)
    requires job.Transcription? && JobFits(db, job, workspace, quota, clock, probe)
    requires Books(db.ledger, workspace, quota, clock) && ChargedInFull(db.ledger, workspace)
    requires row.workspace == job.workspace && row.startedAt == job.started && row.declared == job.declared
    requires Bill(row, workspace) ==> Declared(row) <= Charge(row)
    ensures Books(db.ledger + [row], workspace, quota, clock) && ChargedInFull(db.ledger + [row], workspace)
  {
    if Bill(row, workspace) {
      BooksOfAppend(db.ledger, row, workspace, quota, job.started);
      BooksAge(db.ledger + [row], workspace, quota, job.started, clock);
    } else {
      BooksOfAppend(db.ledger, row, workspace, quota, clock);
    }
  }

  /** The bill of a stored transcript charges at least the length declared, which is still the probed one. */
  lemma StoredBillCharges(s: System, reply: Reply, workspace: Id, quota: int, clock: real, probe: Probe)
    requires Inv(s) && Fits(s, workspace, quota, clock, probe) && 0 in s.jobs && Holds(s.db, s.jobs[0])
          && reply.Transcribed?
    ensures var ledger := StoreTranscript(s.db, s.jobs[0], reply).ledger;
            var row := ledger[|s.db.ledger|];
            && ledger == s.db.ledger + [row]
            && row.workspace == s.jobs[0].workspace
            && row.startedAt == s.jobs[0].started
            && row.declared == s.jobs[0].declared
            && Declared(row) <= Charge(row)
  {
    var r := s.db.recordings[s.jobs[0].recording];
    assert RowProbed(r, probe) && RowOk(r, s.db.issued);
  }

  lemma HeldReplyKeepsBooks(s: System, reply: Reply, workspace: Id, quota: int, clock: real, probe: Probe)
    requires Inv(s) && Fits(s, workspace, quota, clock, probe) && 0 in s.jobs && Holds(s.db, s.jobs[0])
    ensures var ledger := FinishJob(s.db, s.jobs[0], reply).0.ledger;
            Books(ledger, workspace, quota, clock) && ChargedInFull(ledger, workspace)
  {
    var db, job := s.db, s.jobs[0];
    var ledger := FinishJob(db, job, reply).0.ledger;
    if reply.Transcribed? {
      StoredBillCharges(s, reply, workspace, quota, clock, probe);
      RowKeepsBooks(db, job, ledger[|db.ledger|], workspace, quota, clock, probe);
    } else if !reply.Unreachable? {
      RowKeepsBooks(db, job, Entry(job, Some(job.recording), false, db.recordings[job.recording].duration),
                    workspace, quota, clock, probe);
    }
  }

  lemma FencedReplyKeepsBooks(s: System, reply: Reply, workspace: Id, quota: int, clock: real, probe: Probe)
    requires Fits(s, workspace, quota, clock, probe) && 0 in s.jobs && s.jobs[0].Transcription?
          && !Holds(s.db, s.jobs[0])
    ensures var ledger := FinishJob(s.db, s.jobs[0], reply).0.ledger;
            Books(ledger, workspace, quota, clock) && ChargedInFull(ledger, workspace)
  {
    var db, job := s.db, s.jobs[0];
    if reply.Transcribed? {
      if job.recording in db.recordings {
        RowKeepsBooks(db, job, Entry(job, Some(job.recording), false, db.recordings[job.recording].duration),
                      workspace, quota, clock, probe);
      } else {
        RowKeepsBooks(db, job, Entry(job, None, true, job.declared), workspace, quota, clock, probe);
      }
    }
  }

  /** What `Finish` appends keeps the books. */
  lemma ReplyKeepsBooks(s: System, reply: Reply, workspace: Id, quota: int, clock: real, probe: Probe)
    requires Inv(s) && Fits(s, workspace, quota, clock, probe) && 0 in s.jobs && s.jobs[0].Transcription?
    ensures var ledger := FinishJob(s.db, s.jobs[0], reply).0.ledger;
            Books(ledger, workspace, quota, clock) && ChargedInFull(ledger, workspace)
  {
    if Holds(s.db, s.jobs[0]) {
      HeldReplyKeepsBooks(s, reply, workspace, quota, clock, probe);
    } else {
      FencedReplyKeepsBooks(s, reply, workspace, quota, clock, probe);
    }
  }

  lemma SummaryKeepsBooks(db: Db, job: Job, started: real, outcome: SummaryOutcome, workspace: Id, quota: int,
        clock: real)
    requires job.Summary? && Books(db.ledger, workspace, quota, clock) && ChargedInFull(db.ledger, workspace)
    ensures var ledger := FinishSummary(db, job, started, outcome).ledger;
            Books(ledger, workspace, quota, clock) && ChargedInFull(ledger, workspace)
  {
    var ledger := FinishSummary(db, job, started, outcome).ledger;
    if ledger != db.ledger {
      BooksOfAppend(db.ledger, ledger[|db.ledger|], workspace, quota, clock);
    }
  }

  lemma StepKeepsBooks(s: System, e: Event, workspace: Id, quota: int, clock: real, probe: Probe)
    requires Inv(s) && Fits(s, workspace, quota, clock, probe)
    ensures var ledger := Next(s, e).db.ledger;
            Books(ledger, workspace, quota, clock) && ChargedInFull(ledger, workspace)
  {
    match e {
      case Finish(w, reply) =>
        if w in s.jobs && s.jobs[w].Transcription? {
          ReplyKeepsBooks(s, reply, workspace, quota, clock, probe);
        }
      case EndSummary(w, started, outcome) =>
        if w in s.jobs && s.jobs[w].Summary? {
          SummaryKeepsBooks(s.db, s.jobs[w], started, outcome, workspace, quota, clock);
        }
      case Delete(id) =>
        BooksOfUnlinked(s.db.ledger, id, workspace, quota, clock);
        assert Next(s, e).db.ledger == UnlinkedAll(s.db.ledger, id);
      case _ => OthersLeaveLedger(s, e);
    }
  }

  lemma OthersLeaveLedger(s: System, e: Event)
    requires !e.Finish? && !e.EndSummary? && !e.Delete?
    ensures Next(s, e).db.ledger == s.db.ledger
  {
  }

  lemma BeginFits(s: System, e: Event, workspace: Id, quota: int, clock: real, probe: Probe)
    requires DbInv(s.db) && Fits(s, workspace, quota, clock, probe) && e.Begin? && EventFits(e, workspace, quota, probe)
    requires clock <= e.started && 0 !in s.jobs && 0 in Next(s, e).jobs
    ensures JobFits(Next(s, e).db, Next(s, e).jobs[0], workspace, quota, e.started, probe)
  {
    var r := s.db.recordings[e.id];
    assert RowProbed(r, probe) && RowOk(r, s.db.issued);
    BooksAge(s.db.ledger, workspace, quota, clock, e.started);
    if r.status == Pending && r.workspace == workspace {
      GateAdmits(s.db.ledger, e.quotas, workspace, quota, r.duration, e.gateAt, e.started);
    }
  }

  /** With one worker, nothing is charged while its transcription is under way. */
  lemma NothingChargedMeanwhile(s: System, e: Event)
    requires s.jobs.Keys <= {0} && 0 in s.jobs && s.jobs[0].Transcription?
    requires 0 in Next(s, e).jobs && Next(s, e).jobs[0] == s.jobs[0]
    ensures Next(s, e).db.ledger == if e.Delete? then UnlinkedAll(s.db.ledger, e.id) else s.db.ledger
  {
    if e.Delete? {
      assert Next(s, e).db.ledger == UnlinkedAll(s.db.ledger, e.id);
    }
  }

  /** A job that is not this step's own keeps its standing. */
  lemma JobStillFits(a: Db, b: Db, job: Job, e: Event, workspace: Id, quota: int, clock: real, later: real,
        probe: Probe)
    requires Continues(a, b) && JobOk(a, job) && job.Transcription? && Probed(a, probe)
    requires JobFits(a, job, workspace, quota, clock, probe) && clock <= later
    requires b.ledger == if e.Delete? then UnlinkedAll(a.ledger, e.id) else a.ledger
    ensures JobFits(b, job, workspace, quota, later, probe)
  {
    assert job.recording in a.recordings ==> RowProbed(a.recordings[job.recording], probe);
    JobCarriesProbe(a, b, job, probe);
    if e.Delete? && job.workspace == workspace {
      BooksOfUnlinked(a.ledger, e.id, workspace, quota, job.started);
      UsedSecondsOfUnlinked(a.ledger, e.id, workspace, job.started - WINDOW);
    }
  }

  lemma StepKeepsJob(s: System, e: Event, workspace: Id, quota: int, clock: real, later: real, probe: Probe)
    requires Inv(s) && Fits(s, workspace, quota, clock, probe) && EventFits(e, workspace, quota, probe)
    requires clock <= later && (e.Begin? ==> later == e.started)
    requires 0 in Next(s, e).jobs && Next(s, e).jobs[0].Transcription?
    ensures JobFits(Next(s, e).db, Next(s, e).jobs[0], workspace, quota, later, probe)
  {
    if 0 in s.jobs {
      SameJob(s, e);
      NextKeeps(s, e);
      NothingChargedMeanwhile(s, e);
      JobStillFits(s.db, Next(s, e).db, s.jobs[0], e, workspace, quota, clock, later, probe);
    } else {
      StartsByBeginning(s, e);
      BeginFits(s, e, workspace, quota, clock, probe);
    }
  }

  lemma SameJob(s: System, e: Event)
    requires 0 in s.jobs && 0 in Next(s, e).jobs && Next(s, e).jobs[0].Transcription?
    ensures Next(s, e).jobs[0] == s.jobs[0]
  {
  }

  lemma StartsByBeginning(s: System, e: Event)
    requires 0 !in s.jobs && 0 in Next(s, e).jobs
    ensures e.Begin?
  {
  }

  lemma StaysAlone(s: System, e: Event)
    requires s.jobs.Keys <= {0} && (e.Begin? ==> e.worker == 0)
    ensures Next(s, e).jobs.Keys <= {0}
  {
  }

  lemma StepFits(s: System, e: Event, workspace: Id, quota: int, clock: real, later: real, probe: Probe)
    requires Inv(s) && Fits(s, workspace, quota, clock, probe) && EventFits(e, workspace, quota, probe)
    requires clock <= later && (e.Begin? ==> later == e.started)
    ensures Fits(Next(s, e), workspace, quota, later, probe)
  {
    StaysAlone(s, e);
    StepKeepsProbes(s, e, workspace, quota, probe);
    StepKeepsBooks(s, e, workspace, quota, clock, probe);
    BooksAge(Next(s, e).db.ledger, workspace, quota, clock, later);
    if 0 in Next(s, e).jobs && Next(s, e).jobs[0].Transcription? {
      StepKeepsJob(s, e, workspace, quota, clock, later, probe);
    }
  }

  lemma {:induction false} RunFits(events: seq<Event>, workspace: Id, quota: int, probe: Probe)
    requires Orderly(events, workspace, quota, probe)
    ensures Fits(Run(INITIAL, events), workspace, quota, StartOf(events), probe)
  {
    if events != [] {
      var last, rest := events[|events| - 1], events[..|events| - 1];
      RunFits(rest, workspace, quota, probe);
      Reachable(rest);
      StepFits(Run(INITIAL, rest), last, workspace, quota, StartOf(rest), StartOf(events), probe);
    }
  }

  /** In every thirty-day window that has not ended, the lengths declared at admission total at most the
      quota, and usage exceeds the quota by at most the overrun. */
  lemma QuotaHolds(events: seq<Event>, workspace: Id, quota: int, probe: Probe, now: real)
    requires Orderly(events, workspace, quota, probe) && now >= StartOf(events)
    ensures var ledger := Run(INITIAL, events).db.ledger;
            && DeclaredSeconds(ledger, workspace, now - WINDOW) <= Ceiling(quota)
            && UsedSeconds(ledger, workspace, now - WINDOW) <= Ceiling(quota) + Overrun(ledger, workspace, now - WINDOW)
  {
    RunFits(events, workspace, quota, probe);
    var ledger := Run(INITIAL, events).db.ledger;
    UsageWithinQuota(ledger, workspace, quota, StartOf(events), now - WINDOW);
    DeclaredWithinQuota(ledger, workspace, quota, StartOf(events), now - WINDOW);
  }
}
