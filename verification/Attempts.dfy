/** The attempts at one recording: from the first one until a result, a failure, another file or a deletion they all run
    under one request id and one clock. */
module Attempts {
  import opened Records
  import opened Ingest
  import opened Quota
  import opened Protocol
  import opened Safety
  import opened Outcomes
  import Guarantees
  import Runner

  /* ---------- starting an attempt ---------- */

  /** What the gate asks: no quota, a length of zero, or a length that fits what is left of the window. */
  predicate Fits(ledger: seq<LedgerRow>, quotas: Quotas, r: Recording, at: real) {
    || r.workspace !in quotas || quotas[r.workspace].None?
    || (r.duration.Some?
        && (r.duration.value == 0.0
            || UsedSeconds(ledger, r.workspace, at - WINDOW) + r.duration.value
               <= 60.0 * quotas[r.workspace].value as real))
  }

  predicate SameButStatus(a: Recording, b: Recording) {
    a == b.(status := a.status)
  }

  /** A stored request is carried on with the instant beside it, and none is issued; otherwise a fresh one is made,
      that no row and no worker has. */
  predicate CarriesOn(s: System, s': System, worker: WorkerId, id: Id, started: real)
    requires id in s.db.recordings && id in s'.db.recordings && worker in s'.jobs && s'.jobs[worker].Transcription?
  {
    var before, after, job := s.db.recordings[id], s'.db.recordings[id], s'.jobs[worker];
    && after.requestId == Some(job.token) && after.runnerStartedAt == Some(job.base)
    && SameButStatus(before.(requestId := after.requestId, runnerStartedAt := after.runnerStartedAt), after)
    && if before.requestId.Some?
       then before.requestId == Some(job.token) && before.runnerStartedAt == Some(job.base)
            && s'.db.issued == s.db.issued
       else && job.base == started && s'.db.issued == s.db.issued + [started]
            && (forall i | i in s.db.recordings :: s.db.recordings[i].requestId != Some(job.token))
            && (forall w | w in s.jobs && s.jobs[w].Transcription? :: s.jobs[w].token != job.token)
  }

  /** The job is for this recording, as it is, within the time its length allows. */
  predicate JobFor(job: Job, id: Id, r: Recording, started: real) {
    && job.Transcription? && job.recording == id && job.workspace == r.workspace
    && job.declared == r.duration && job.started == started && job.limit == JobTimeout(r.duration)
  }

  /** One that only lacks its summary goes to that, and takes along what its transcription noted. One to be transcribed
      starts if it fits the quota; it fails if its length cannot be told, and waits if it is too long. */
  predicate Begun(s: System, s': System, worker: WorkerId, id: Id, quotas: Quotas, gateAt: real, started: real)
    requires id in s.db.recordings
  {
    && OnlyRow(s.db, s'.db.(issued := s.db.issued), id) && s'.db.ledger == s.db.ledger
    && var before, after := s.db.recordings[id], s'.db.recordings[id];
       if before.status == Enriching then
         && after.status == Summarizing && SameButStatus(before, after) && s'.db.issued == s.db.issued
         && s'.jobs == s.jobs[worker := Summary(id, before.workspace,
                                                if before.error == DiarizeFailed then DiarizeFailed else NoError)]
       else if Fits(s.db.ledger, quotas, before, gateAt) then
         && after.status == Transcribing
         && worker in s'.jobs && s'.jobs == s.jobs[worker := s'.jobs[worker]]
         && JobFor(s'.jobs[worker], id, before, started)
         && CarriesOn(s, s', worker, id, started)
       else
         && s'.jobs == s.jobs && s'.db.issued == s.db.issued
         && if before.duration.None?
            then after.status == Failed && after.error == OtherError
                 && SameButStatus(before.(error := OtherError), after)
            else after.status == QuotaBlocked && SameButStatus(before, after)
  }

  lemma FreshIsFresh(s: System)
    requires Inv(s)
    ensures forall i | i in s.db.recordings :: s.db.recordings[i].requestId != Some(|s.db.issued|)
    ensures forall w | w in s.jobs && s.jobs[w].Transcription? :: s.jobs[w].token != |s.db.issued|
  {
    forall i | i in s.db.recordings
      ensures s.db.recordings[i].requestId != Some(|s.db.issued|)
    {
      assert RowOk(s.db.recordings[i], s.db.issued);
    }
    forall w | w in s.jobs && s.jobs[w].Transcription?
      ensures s.jobs[w].token != |s.db.issued|
    {
      assert JobOk(s.db, s.jobs[w]);
    }
  }

  lemma GateAsks(db: Db, quotas: Quotas, r: Recording, at: real)
    ensures var verdict := TranscriptionBlock(db.ledger, quotas, r.workspace, r.duration, at);
            if Fits(db.ledger, quotas, r, at) then verdict == Allowed
            else if r.duration.None? then verdict == DurationUnknown else verdict == Exceeded
  {
    GateInSeconds(db.ledger, quotas, r.workspace, r.duration, at);
  }

  lemma SummaryIsBegun(s: System, worker: WorkerId, id: Id, quotas: Quotas, gateAt: real, started: real)
    requires Inv(s) && worker !in s.jobs && id in s.db.recordings && Claimable(s.db.recordings[id])
    requires s.db.recordings[id].status == Enriching
    ensures Begun(s, Next(s, Begin(worker, id, quotas, gateAt, started)), worker, id, quotas, gateAt, started)
  {
  }

  lemma TranscriptionIsBegun(s: System, worker: WorkerId, id: Id, quotas: Quotas, gateAt: real, started: real)
    requires Inv(s) && worker !in s.jobs && id in s.db.recordings && Claimable(s.db.recordings[id])
    requires s.db.recordings[id].status == Pending && Fits(s.db.ledger, quotas, s.db.recordings[id], gateAt)
    ensures Begun(s, Next(s, Begin(worker, id, quotas, gateAt, started)), worker, id, quotas, gateAt, started)
  {
    FreshIsFresh(s);
    GateAsks(s.db, quotas, s.db.recordings[id], gateAt);
    assert RowOk(s.db.recordings[id], s.db.issued);
  }

  lemma StepIsBegun(s: System, worker: WorkerId, id: Id, quotas: Quotas, gateAt: real, started: real)
    requires Inv(s) && worker !in s.jobs && id in s.db.recordings && Claimable(s.db.recordings[id])
    ensures Begun(s, Next(s, Begin(worker, id, quotas, gateAt, started)), worker, id, quotas, gateAt, started)
  {
    if s.db.recordings[id].status == Enriching {
      SummaryIsBegun(s, worker, id, quotas, gateAt, started);
    } else if Fits(s.db.ledger, quotas, s.db.recordings[id], gateAt) {
      TranscriptionIsBegun(s, worker, id, quotas, gateAt, started);
    } else {
      GateAsks(s.db, quotas, s.db.recordings[id], gateAt);
    }
  }

  /** What the claim of a free worker does, over every run. */
  lemma {:induction false} BeginningIsBegun(events: seq<Event>, worker: WorkerId, id: Id, quotas: Quotas, gateAt: real,
        started: real)
    ensures var s := Run(INITIAL, events);
            worker !in s.jobs && id in s.db.recordings && Claimable(s.db.recordings[id]) ==>
              Begun(s, Next(s, Begin(worker, id, quotas, gateAt, started)), worker, id, quotas, gateAt, started)
  {
    Guarantees.Reachable(events);
    var s := Run(INITIAL, events);
    if worker !in s.jobs && id in s.db.recordings && Claimable(s.db.recordings[id]) {
      StepIsBegun(s, worker, id, quotas, gateAt, started);
    }
  }

  /* ---------- until the request is settled ---------- */

  /** Its request ends: a worker that holds it stores a result or a failure, its file is found to be another, or the
      recording is deleted. */
  predicate Settles(s: System, e: Event, id: Id)
    requires id in s.db.recordings
  {
    match e
    case Finish(w, reply) => w in s.jobs && Holds(s.db, s.jobs[w]) && s.jobs[w].recording == id && !reply.Unreachable?
    case Register(fs, path, _, _, _) =>
      SitsAt(s.db.recordings[id], path) && path in fs && !SameContent(s.db.recordings[id], fs[path])
    case Delete(i) => i == id
    case _ => false
  }

  predicate Under(db: Db, id: Id, token: nat, base: real) {
    id in db.recordings && db.recordings[id].requestId == Some(token) && db.recordings[id].runnerStartedAt == Some(base)
  }

  /** Somewhere along the steps the request was settled. */
  predicate Settled(s: System, events: seq<Event>, id: Id) {
    events != [] &&
    (var rest := events[..|events| - 1];
     || Settled(s, rest, id)
     || id !in Run(s, rest).db.recordings
     || Settles(Run(s, rest), events[|events| - 1], id))
  }

  lemma PlacingKeepsRequests(db: Db, fs: FileSystem, path: Path, workspace: Id, source: Source, id: Id, token: nat,
        base: real)
    requires path in fs && db.nextId !in db.recordings && Under(db, id, token, base)
    ensures Under(Place(db, fs, path, workspace, source).db, id, token, base)
  {
  }

  lemma RevisitingKeepsRequests(db: Db, holder: Id, e: Event, id: Id, token: nat, base: real)
    requires e.Register? && e.path in e.fs && db.nextId !in db.recordings && holder in db.recordings
    requires Under(db, id, token, base) && (holder == id ==> SameContent(db.recordings[id], e.fs[e.path]))
    ensures var result := Revisit(db, holder, e.fs, e.path, e.workspace, e.source, e.verifyExisting);
            result.Ingested? ==> Under(result.db, id, token, base)
  {
    if holder != id {
      PlacingKeepsRequests(WithRow(db, holder, LetGo(db.recordings[holder])), e.fs, e.path, e.workspace, e.source, id,
                           token, base);
    }
  }

  lemma RegisteringKeepsRequests(s: System, e: Event, id: Id, token: nat, base: real)
    requires Inv(s) && e.Register? && Under(s.db, id, token, base) && !Settles(s, e, id)
    ensures Under(Next(s, e).db, id, token, base)
  {
    assert s.db.nextId !in s.db.recordings;
    if e.path in e.fs {
      var existing := CurrentAt(s.db, e.path);
      if existing.Some? {
        RevisitingKeepsRequests(s.db, existing.value, e, id, token, base);
      } else {
        PlacingKeepsRequests(s.db, e.fs, e.path, e.workspace, e.source, id, token, base);
      }
    }
  }

  lemma BeginningKeepsRequests(s: System, e: Event, id: Id, token: nat, base: real)
    requires e.Begin? && Under(s.db, id, token, base)
    ensures Under(Next(s, e).db, id, token, base)
  {
  }

  lemma FinishingKeepsRequests(s: System, e: Event, id: Id, token: nat, base: real)
    requires Inv(s) && e.Finish? && Under(s.db, id, token, base) && !Settles(s, e, id)
    ensures Under(Next(s, e).db, id, token, base)
  {
    assert RowOk(s.db.recordings[id], s.db.issued);
  }

  lemma UpkeepKeepsRequests(s: System, e: Event, id: Id, token: nat, base: real)
    requires (Maintenance(e) || (e.Delete? && e.id != id)) && Under(s.db, id, token, base)
    requires RowOk(s.db.recordings[id], s.db.issued)
    ensures Under(Next(s, e).db, id, token, base)
  {
  }

  lemma SummarizingKeepsRequests(s: System, e: Event, id: Id, token: nat, base: real)
    requires e.EndSummary? && Under(s.db, id, token, base)
    ensures Under(Next(s, e).db, id, token, base)
  {
  }

  lemma WorkKeepsRequests(s: System, e: Event, id: Id, token: nat, base: real)
    requires Inv(s) && (e.Begin? || e.Finish? || e.EndSummary?) && Under(s.db, id, token, base) && !Settles(s, e, id)
    ensures Under(Next(s, e).db, id, token, base)
  {
    match e {
      case Begin(_, _, _, _, _) => BeginningKeepsRequests(s, e, id, token, base);
      case Finish(_, _) => FinishingKeepsRequests(s, e, id, token, base);
      case EndSummary(_, _, _) => SummarizingKeepsRequests(s, e, id, token, base);
    }
  }

  lemma StepKeepsRequests(s: System, e: Event, id: Id, token: nat, base: real)
    requires Inv(s) && Under(s.db, id, token, base) && !Settles(s, e, id)
    ensures Under(Next(s, e).db, id, token, base)
  {
    if e.Register? {
      RegisteringKeepsRequests(s, e, id, token, base);
    } else if e.Begin? || e.Finish? || e.EndSummary? {
      WorkKeepsRequests(s, e, id, token, base);
    } else if !e.Crash? && !e.Report? {
      UpkeepKeepsRequests(s, e, id, token, base);
    }
  }

  lemma {:induction false} RunKeepsRequests(s: System, events: seq<Event>, id: Id, token: nat, base: real)
    requires Inv(s) && Under(s.db, id, token, base) && !Settled(s, events, id)
    ensures Under(Run(s, events).db, id, token, base)
  {
    if events != [] {
      var rest := events[..|events| - 1];
      RunKeepsRequests(s, rest, id, token, base);
      RunKeeps(s, rest);
      StepKeepsRequests(Run(s, rest), events[|events| - 1], id, token, base);
    }
  }

  /* ---------- one clock for all attempts ---------- */

  /** This step is an attempt at its recording. */
  predicate Starts(s: System, e: Event) {
    && e.Begin? && e.worker !in s.jobs && e.id in s.db.recordings && Claimable(s.db.recordings[e.id])
    && e.worker in Next(s, e).jobs && Next(s, e).jobs[e.worker].Transcription?
  }

  /** And the first one, with no request there yet. */
  predicate StartsAnew(s: System, e: Event) {
    Starts(s, e) && s.db.recordings[e.id].requestId.None?
  }

  /** After a first attempt, with the request not settled since, a further attempt has the same request and clock:
      whatever crashed, was recovered, retried, moved or sent back in between. */
  lemma {:induction false} AttemptsShareTheRequest(events: seq<Event>, begin: Event, more: seq<Event>, again: Event)
    requires StartsAnew(Run(INITIAL, events), begin)
    requires var s := Next(Run(INITIAL, events), begin);
             !Settled(s, more, begin.id) && Starts(Run(s, more), again) && again.id == begin.id
    ensures var s := Next(Run(INITIAL, events), begin);
            var first, late := s.jobs[begin.worker], Run(s, more);
            var job := Next(late, again).jobs[again.worker];
            && JobFor(job, begin.id, late.db.recordings[begin.id], again.started)
            && job.token == first.token
            && job.base == first.base == first.started == begin.started
            && Next(late, again).db.issued == late.db.issued
            && Holds(Next(late, again).db, job)
  {
    Guarantees.Reachable(events);
    var before, s := Run(INITIAL, events), Next(Run(INITIAL, events), begin);
    NextKeeps(before, begin);
    StepIsBegun(before, begin.worker, begin.id, begin.quotas, begin.gateAt, begin.started);
    var first := s.jobs[begin.worker];
    RunKeepsRequests(s, more, begin.id, first.token, first.base);
    RunKeeps(s, more);
    var late := Run(s, more);
    StepIsBegun(late, again.worker, again.id, again.quotas, again.gateAt, again.started);
    assert RowOk(late.db.recordings[again.id], late.db.issued);
  }

  /** So over all attempts nothing is submitted later than the first one's start and the limit, give or take what an
      attempt spends before its call; and an attempt that starts past that submits nothing and ends the recording in
      error, however often it went back to the queue. */
  lemma {:induction false} AllAttemptsInTime(events: seq<Event>, begin: Event, more: seq<Event>, again: Event,
        world: Runner.World, callAt: real, interval: Runner.Interval)
    requires StartsAnew(Run(INITIAL, events), begin)
    requires var s := Next(Run(INITIAL, events), begin);
             !Settled(s, more, begin.id) && Starts(Run(s, more), again) && again.id == begin.id
    requires callAt >= again.started
    ensures var s := Next(Run(Next(Run(INITIAL, events), begin), more), again);
            var job := s.jobs[again.worker];
            var call := Runner.WorkerCall(world, job, callAt, interval);
            var deadline := begin.started + JobTimeout(job.declared);
            && (forall k | 0 <= k < |call.submissions| :: call.submissions[k] < deadline + (callAt - again.started))
            && (again.started >= deadline ==>
                  && call.submissions == []
                  && var after := Next(s, Finish(again.worker, Runner.ReplyOf(call.outcome))).db;
                  && begin.id in after.recordings
                  && after.recordings[begin.id].status == Failed
                  && after.recordings[begin.id].requestId.None?)
  {
    AttemptsShareTheRequest(events, begin, more, again);
    var s := Next(Run(Next(Run(INITIAL, events), begin), more), again);
    var job := s.jobs[again.worker];
    Runner.SubmittedInTime(world, job, callAt, interval);
    if again.started >= begin.started + JobTimeout(job.declared) {
      Runner.PastTheDeadlineEndsInError(world, s.db, job, callAt, interval);
    }
  }

  /* ---------- a recording sent back to the queue ---------- */

  const PATH: Path := ["a"]
  const FILE := File(Signature(1, 1, 1, 1, 1), "hash", "", Some(60.0), None)
  const REGISTER := Register(map[PATH := FILE], PATH, 0, Scanned, true)
  const BEGIN := Begin(0, 0, map[], 0.0, 0.0)
  const UNREACHED := Finish(0, Unreachable)
  const AGAIN := Begin(1, 0, map[], 5000.0, 5000.0)

  const WAITING := Registered(PATH, FILE, 0, Scanned, None)
  const STARTED := WAITING.(status := Transcribing, requestId := Some(0), runnerStartedAt := Some(0.0))
  const SENT_BACK := STARTED.(status := Pending)
  const JOB := Transcription(0, 0, 0.0, 0.0, 0, Some(60.0), 3600.0)

  function OneRow(r: Recording, issued: seq<real>, jobs: map<WorkerId, Job>): System {
    System(Db(map[0 := r], 1, [], issued), jobs)
  }

  lemma Waits()
    ensures Next(INITIAL, REGISTER) == OneRow(WAITING, [], map[])
  {
    var db := INITIAL.db;
    assert FindMoved(db, map[PATH := FILE], "hash", 0).None?;
    assert FindOriginal(db, map[PATH := FILE], FILE, 0).None?;
    assert IngestFile(db, map[PATH := FILE], PATH, 0, Scanned, true).db == OneRow(WAITING, [], map[]).db;
  }

  lemma StartsFirst()
    ensures StartsAnew(OneRow(WAITING, [], map[]), BEGIN)
    ensures Next(OneRow(WAITING, [], map[]), BEGIN) == OneRow(STARTED, [0.0], map[0 := JOB])
  {
    var begun := BeginJob(OneRow(WAITING, [], map[]).db, 0, map[], 0.0, 0.0);
    assert begun.1 == Some(JOB);
    assert begun.0.recordings == map[0 := STARTED];
    assert begun.0.issued == [0.0];
  }

  lemma GoesBack()
    ensures Next(OneRow(STARTED, [0.0], map[0 := JOB]), UNREACHED) == OneRow(SENT_BACK, [0.0], map[])
    ensures !Settles(OneRow(STARTED, [0.0], map[0 := JOB]), UNREACHED, 0)
  {
    assert Next(OneRow(STARTED, [0.0], map[0 := JOB]), UNREACHED).jobs == map[];
  }

  lemma StartsOver()
    ensures Starts(OneRow(SENT_BACK, [0.0], map[]), AGAIN)
    ensures Next(OneRow(SENT_BACK, [0.0], map[]), AGAIN).jobs[1].token == 0
    ensures Next(OneRow(SENT_BACK, [0.0], map[]), AGAIN).jobs[1].base == 0.0
  {
  }

  /** With the runner down at the first attempt, the one an hour and more later has the same request and clock: its time
      is up, and it ends the recording in error instead of starting anew. */
  lemma LateAttemptIsNoNewOne()
    ensures StartsAnew(Run(INITIAL, [REGISTER]), BEGIN)
    ensures var s := Next(Run(INITIAL, [REGISTER]), BEGIN);
            && !Settled(s, [UNREACHED], 0) && Starts(Run(s, [UNREACHED]), AGAIN)
            && var job := Next(Run(s, [UNREACHED]), AGAIN).jobs[1];
            job.token == 0 && job.base == 0.0 && job.started >= job.base + job.limit
  {
    assert [REGISTER][..0] == [] && [UNREACHED][..0] == [];
    Waits();
    assert Run(INITIAL, [REGISTER]) == OneRow(WAITING, [], map[]);
    StartsFirst();
    GoesBack();
    var s := OneRow(STARTED, [0.0], map[0 := JOB]);
    assert Run(s, []) == s;
    assert Run(s, [UNREACHED]) == OneRow(SENT_BACK, [0.0], map[]);
    StartsOver();
  }
}
