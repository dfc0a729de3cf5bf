/** The archive and its tenants as one system: uploads, workers and maintenance beside sign-ups, invites, removals
    and rejections. A rejection looks at the recordings and the history there are, a dropped workspace takes its rows
    along, and a ledger row needs a workspace to refer to. */
module Estate {
  import opened Records
  import opened Ingest
  import opened Quota
  import Protocol
  import Safety
  import Guarantees
  import QuotaBound
  import Tenancy

  /** `founded` are the workspace keys given out so far: an identity column gives none twice. */
  datatype Estate = Estate(house: Tenancy.House, sys: Protocol.System, founded: set<Id>)

  datatype Event = Work(event: Protocol.Event) | People(step: Tenancy.Step)

  /** A rejection counts the recordings and the history of each workspace itself. */
  function Counting(step: Tenancy.Step, db: Db): Tenancy.Step {
    if step.Reject? then step.(busy := Tenancy.Busy(db.recordings, db.ledger)) else step
  }

  /** `ON DELETE CASCADE` from the workspaces. */
  function Cascade(ledger: seq<LedgerRow>, workspaces: set<Id>): seq<LedgerRow> {
    if ledger == [] then []
    else
      var rest, last := Cascade(ledger[..|ledger| - 1], workspaces), ledger[|ledger| - 1];
      if last.workspace in workspaces then rest + [last] else rest
  }

  function Cascaded(db: Db, workspaces: set<Id>): Db {
    db.(recordings := map id | id in db.recordings && db.recordings[id].workspace in workspaces :: db.recordings[id],
    ledger := Cascade(db.ledger, workspaces))
  }

  /** The foreign key of the last ledger row. */
  predicate Refers(ledger: seq<LedgerRow>, workspaces: set<Id>) {
    ledger == [] || ledger[|ledger| - 1].workspace in workspaces
  }

  /** A commit whose new row refers to no workspace fails as a whole, and the worker gives its job up. */
  function Worked(sys: Protocol.System, e: Protocol.Event, workspaces: set<Id>): Protocol.System {
    var sys' := Protocol.Next(sys, e);
    if e.Register? && e.workspace !in workspaces then sys
    else if sys'.db.ledger != sys.db.ledger && !Refers(sys'.db.ledger, workspaces) then sys'.(db := sys.db)
    else sys'
  }

  function Next(x: Estate, e: Event): Estate {
    match e
    case Work(event) => x.(sys := Worked(x.sys, event, x.house.workspaces.Keys))
    case People(step) =>
      var key := Tenancy.NewKey(step);
      if key.Some? && key.value in x.founded then x
      else
        var house := Tenancy.Next(x.house, Counting(step, x.sys.db));
        Estate(house, x.sys.(db := Cascaded(x.sys.db, house.workspaces.Keys)), x.founded + house.workspaces.Keys)
  }

  const INITIAL := Estate(Tenancy.INITIAL, Protocol.INITIAL, {})

  function Run(x: Estate, events: seq<Event>): Estate {
    if events == [] then x else Next(Run(x, events[..|events| - 1]), events[|events| - 1])
  }

  /* ---------- the foreign keys hold ---------- */

  /** Every recording and every ledger row refers to a workspace that exists. */
  predicate Linked(db: Db, workspaces: set<Id>) {
    && (forall id | id in db.recordings :: db.recordings[id].workspace in workspaces)
    && (forall k | 0 <= k < |db.ledger| :: db.ledger[k].workspace in workspaces)
  }

  ghost predicate Sound(x: Estate) {
    && Safety.Inv(x.sys)
    && Tenancy.Kept(x.house)
    && Linked(x.sys.db, x.house.workspaces.Keys)
    && x.house.workspaces.Keys <= x.founded
  }

  lemma {:induction false} CascadeOfLinked(ledger: seq<LedgerRow>, workspaces: set<Id>)
    requires forall k | 0 <= k < |ledger| :: ledger[k].workspace in workspaces
    ensures Cascade(ledger, workspaces) == ledger
  {
    if ledger != [] {
      CascadeOfLinked(ledger[..|ledger| - 1], workspaces);
      assert ledger == ledger[..|ledger| - 1] + [ledger[|ledger| - 1]];
    }
  }

  lemma NothingCascades(db: Db, workspaces: set<Id>)
    requires Linked(db, workspaces)
    ensures Cascaded(db, workspaces) == db
  {
    CascadeOfLinked(db.ledger, workspaces);
    assert Cascaded(db, workspaces).recordings == db.recordings;
  }

  /** No step of the tenants touches a workspace with recordings or history: it is never dropped. */
  lemma PeopleKeepHistory(x: Estate, step: Tenancy.Step)
    requires Sound(x)
    ensures Linked(x.sys.db, Tenancy.Next(x.house, Counting(step, x.sys.db)).workspaces.Keys)
  {
    var db := x.sys.db;
    var busy := Tenancy.Busy(db.recordings, db.ledger);
    var house := Tenancy.Next(x.house, Counting(step, db));
    forall w | w in busy && w in x.house.workspaces
      ensures w in house.workspaces
    {
      Tenancy.WorkspacesMove(x.house, Counting(step, db), w);
    }
    assert forall k | 0 <= k < |db.ledger| :: db.ledger[k].workspace in busy;
  }

  lemma FollowedHome(a: Db, b: Db, id: Id)
    requires Safety.Continues(a, b) && Safety.RowsOk(a) && Safety.RowsOk(b) && id in b.recordings
    ensures id in a.recordings ==> b.recordings[id].workspace == a.recordings[id].workspace
    ensures id !in a.recordings ==> a.nextId <= id < b.nextId
  {
    if id < a.nextId {
      assert Safety.Follows(a.recordings[id], b.recordings[id], |a.issued|);
    }
  }

  lemma OnlyRegisteringAdds(s: Protocol.System, e: Protocol.Event)
    requires !e.Register?
    ensures Protocol.Next(s, e).db.nextId == s.db.nextId
  {
  }

  lemma RegisteredHome(db: Db, fs: FileSystem, path: Path, workspace: Id, source: Source, verifyExisting: bool, id: Id)
    requires Safety.RowsOk(db) && id !in db.recordings
    ensures var result := IngestFile(db, fs, path, workspace, source, verifyExisting);
            result.Ingested? && id in result.db.recordings ==> result.db.recordings[id].workspace == workspace
  {
    if path in fs {
      var existing := CurrentAt(db, path);
      if existing.Some? {
        PlacedHome(WithRow(db, existing.value, LetGo(db.recordings[existing.value])), fs, path, workspace, source, id);
      } else {
        PlacedHome(db, fs, path, workspace, source, id);
      }
    }
  }

  lemma PlacedHome(db: Db, fs: FileSystem, path: Path, workspace: Id, source: Source, id: Id)
    requires path in fs && id !in db.recordings
    ensures var recs := Place(db, fs, path, workspace, source).db.recordings;
            id in recs ==> recs[id].workspace == workspace
  {
  }

  /** A step of the archive leaves each row in its workspace; only registering brings new rows. */
  lemma RowsStayHome(s: Protocol.System, e: Protocol.Event, id: Id)
    requires Safety.Inv(s) && id in Protocol.Next(s, e).db.recordings
    ensures id in s.db.recordings ==> Protocol.Next(s, e).db.recordings[id].workspace == s.db.recordings[id].workspace
    ensures id !in s.db.recordings ==> e.Register? && Protocol.Next(s, e).db.recordings[id].workspace == e.workspace
  {
    Safety.NextKeeps(s, e);
    FollowedHome(s.db, Protocol.Next(s, e).db, id);
    if id !in s.db.recordings {
      if e.Register? {
        RegisteredHome(s.db, e.fs, e.path, e.workspace, e.source, e.verifyExisting, id);
      } else {
        OnlyRegisteringAdds(s, e);
      }
    }
  }

  /** What a step does to the tables, seen from the workspaces they refer to. */
  lemma WorkLinks(s: Protocol.System, e: Protocol.Event, workspaces: set<Id>)
    requires Safety.Inv(s) && Linked(s.db, workspaces)
    ensures Linked(Worked(s, e, workspaces).db, workspaces)
  {
    var s' := Protocol.Next(s, e);
    if Worked(s, e, workspaces) == s' {
      forall id | id in s'.db.recordings
        ensures s'.db.recordings[id].workspace in workspaces
      {
        RowsStayHome(s, e, id);
      }
      Guarantees.LedgerMoves(s, e);
    }
  }

  /* ---------- the archive's runs and the tenants' runs are runs of their own ---------- */

  /** The charge of this result finds no workspace to refer to. */
  predicate ChargeLost(x: Estate, e: Protocol.Event) {
    && e.Finish?
    && e.worker in x.sys.jobs
    && x.sys.jobs[e.worker].Transcription?
    && e.reply.Transcribed?
    && x.sys.jobs[e.worker].workspace !in x.house.workspaces
  }

  /** The protocol's step that an event amounts to. A lost charge is a worker that stopped in time. */
  function Projected(x: Estate, e: Event): Option<Protocol.Event> {
    match e
    case People(_) => None
    case Work(event) =>
      if event.Register? && event.workspace !in x.house.workspaces then None
      else if ChargeLost(x, event) then Some(Protocol.Crash(event.worker))
      else Some(event)
  }

  lemma FinishProjects(x: Estate, e: Protocol.Event)
    requires Sound(x) && e.Finish? && e.worker in x.sys.jobs && x.sys.jobs[e.worker].Transcription?
    ensures Worked(x.sys, e, x.house.workspaces.Keys)
         == if ChargeLost(x, e) then Protocol.Next(x.sys, Protocol.Crash(e.worker)) else Protocol.Next(x.sys, e)
  {
    var job := x.sys.jobs[e.worker];
    assert Safety.JobOk(x.sys.db, job);
    if job.recording in x.sys.db.recordings {
      assert x.sys.db.recordings[job.recording].workspace == job.workspace;
    }
  }

  lemma SummaryProjects(x: Estate, e: Protocol.Event)
    requires Sound(x) && e.EndSummary? && e.worker in x.sys.jobs && x.sys.jobs[e.worker].Summary?
    ensures Worked(x.sys, e, x.house.workspaces.Keys) == Protocol.Next(x.sys, e)
  {
    var job := x.sys.jobs[e.worker];
    assert Safety.JobOk(x.sys.db, job);
    if job.recording in x.sys.db.recordings {
      assert x.sys.db.recordings[job.recording].workspace == job.workspace;
    }
  }

  lemma DeleteProjects(x: Estate, e: Protocol.Event)
    requires Sound(x) && e.Delete?
    ensures Worked(x.sys, e, x.house.workspaces.Keys) == Protocol.Next(x.sys, e)
  {
    var ledger := Protocol.Next(x.sys, e).db.ledger;
    assert ledger == Protocol.UnlinkedAll(x.sys.db.ledger, e.id);
    assert Refers(ledger, x.house.workspaces.Keys);
  }

  /** The workspace of a job exists while its recording does, so the only commit the foreign keys ever refuse is the
      charge for a recording deleted together with its workspace. */
  lemma WorkProjects(x: Estate, e: Protocol.Event)
    requires Sound(x)
    ensures Worked(x.sys, e, x.house.workspaces.Keys)
         == match Projected(x, Work(e))
            case None => x.sys
            case Some(e') => Protocol.Next(x.sys, e')
  {
    match e {
      case Finish(w, _) =>
        if w in x.sys.jobs && x.sys.jobs[w].Transcription? {
          FinishProjects(x, e);
        }
      case EndSummary(w, _, _) =>
        if w in x.sys.jobs && x.sys.jobs[w].Summary? {
          SummaryProjects(x, e);
        }
      case Delete(_) => DeleteProjects(x, e);
      case _ => QuotaBound.OthersLeaveLedger(x.sys, e);
    }
  }

  lemma PeopleProject(x: Estate, step: Tenancy.Step)
    requires Sound(x)
    ensures var x' := Next(x, People(step)); x'.sys == x.sys && Sound(x')
  {
    var step' := Counting(step, x.sys.db);
    var house := Tenancy.Next(x.house, step');
    PeopleKeepHistory(x, step);
    NothingCascades(x.sys.db, house.workspaces.Keys);
    Tenancy.StepKeeps(x.house, step');
  }

  /** Every step keeps the whole sound, and is a step of the archive, a step of the tenants, or none. */
  lemma NextIsSound(x: Estate, e: Event)
    requires Sound(x)
    ensures Sound(Next(x, e))
    ensures Next(x, e).sys == match Projected(x, e)
                              case None => x.sys
                              case Some(e') => Protocol.Next(x.sys, e')
  {
    match e {
      case Work(event) =>
        WorkProjects(x, event);
        WorkLinks(x.sys, event, x.house.workspaces.Keys);
        if Projected(x, e).Some? {
          Safety.NextKeeps(x.sys, Projected(x, e).value);
        }
      case People(step) => PeopleProject(x, step);
    }
  }

  lemma {:induction false} RunIsSound(x: Estate, events: seq<Event>)
    requires Sound(x)
    ensures Sound(Run(x, events))
  {
    if events != [] {
      RunIsSound(x, events[..|events| - 1]);
      NextIsSound(Run(x, events[..|events| - 1]), events[|events| - 1]);
    }
  }

  lemma {:induction false} Reachable(events: seq<Event>)
    ensures Sound(Run(INITIAL, events))
  {
    Safety.RunKeeps(Protocol.INITIAL, []);
    RunIsSound(INITIAL, events);
  }

  /** Whatever the tenants do meanwhile, the archive goes through a run of its own protocol: what is proved of all
      those runs holds here. */
  lemma {:induction false} ArchiveRunsItsProtocol(x: Estate, events: seq<Event>) returns (work: seq<Protocol.Event>)
    requires Sound(x)
    ensures Run(x, events).sys == Protocol.Run(x.sys, work)
  {
    work := [];
    if events != [] {
      var before, last := Run(x, events[..|events| - 1]), events[|events| - 1];
      work := ArchiveRunsItsProtocol(x, events[..|events| - 1]);
      RunIsSound(x, events[..|events| - 1]);
      NextIsSound(before, last);
      var next := Projected(before, last);
      if next.Some? {
        assert (work + [next.value])[..|work|] == work;
        work := work + [next.value];
      }
    }
  }

  /* ---------- usage ---------- */

  /** At a fixed instant the usage of a workspace never falls: no deletion, replacement, retry, rejection, approval,
      invite or removal, in any order, takes anything off it. */
  lemma {:induction false} UsageCannotBeReset(events: seq<Event>, more: seq<Event>, workspace: Id, since: real)
    ensures UsedSeconds(Run(Run(INITIAL, events), more).sys.db.ledger, workspace, since)
         >= UsedSeconds(Run(INITIAL, events).sys.db.ledger, workspace, since)
  {
    Reachable(events);
    var work := ArchiveRunsItsProtocol(Run(INITIAL, events), more);
    Guarantees.UsageCannotBeReset(Run(INITIAL, events).sys, work, workspace, since);
  }

  /** A workspace goes away exactly when a rejection finds it droppable: personal, the rejected user alone in it, no
      recording and no history. */
  predicate DroppedAt(x: Estate, e: Event, w: Id) {
    && e.People?
    && e.step.Reject?
    && Tenancy.Droppable(x.house, Tenancy.Busy(x.sys.db.recordings, x.sys.db.ledger), w, e.step.user)
  }

  lemma WorkspaceGoesExactly(x: Estate, e: Event, w: Id)
    requires Sound(x) && w in x.founded
    ensures w in Next(x, e).founded
    ensures w in Next(x, e).house.workspaces <==> w in x.house.workspaces && !DroppedAt(x, e, w)
  {
    if e.People? {
      Tenancy.WorkspacesMove(x.house, Counting(e.step, x.sys.db), w);
    }
  }

  /** Somewhere in the run the workspace was dropped. */
  predicate WasDropped(x: Estate, events: seq<Event>, w: Id) {
    events != [] &&
    (var rest := events[..|events| - 1];
     WasDropped(x, rest, w) || DroppedAt(Run(x, rest), events[|events| - 1], w))
  }

  lemma {:induction false} WorkspaceIsGoneExactly(x: Estate, events: seq<Event>, w: Id)
    requires Sound(x) && w in x.house.workspaces
    ensures w in Run(x, events).founded
    ensures w !in Run(x, events).house.workspaces <==> WasDropped(x, events, w)
  {
    if events != [] {
      var rest := events[..|events| - 1];
      WorkspaceIsGoneExactly(x, rest, w);
      RunIsSound(x, rest);
      WorkspaceGoesExactly(Run(x, rest), events[|events| - 1], w);
    }
  }

  /* ---------- what a finished transcription is charged ---------- */

  /** What can happen while the runner works for this worker: steps of anybody else, and the worker's own reports. */
  predicate Meanwhile(e: Event, worker: Protocol.WorkerId) {
    e.People? ||
    match e.event
    case Begin(w, _, _, _, _) => w != worker
    case Finish(w, _) => w != worker
    case EndSummary(w, _, _) => w != worker
    case Crash(w) => w != worker
    case _ => true
  }

  /** Somewhere in the run the worker reported on a recording that was gone. */
  predicate BrokenOff(x: Estate, events: seq<Event>, worker: Protocol.WorkerId, id: Id) {
    events != [] &&
    (var rest := events[..|events| - 1];
     || BrokenOff(x, rest, worker, id)
     || (events[|events| - 1] == Work(Protocol.Report(worker)) && id !in Run(x, rest).sys.db.recordings))
  }

  lemma OthersLeaveJob(s: Protocol.System, e: Protocol.Event, worker: Protocol.WorkerId)
    requires Meanwhile(Work(e), worker) && !e.Report?
    ensures var jobs := Protocol.Next(s, e).jobs;
            worker in jobs <==> worker in s.jobs
    ensures worker in s.jobs ==> Protocol.Next(s, e).jobs[worker] == s.jobs[worker]
  {
  }

  lemma JobWaits(x: Estate, e: Event, worker: Protocol.WorkerId)
    requires Sound(x) && Meanwhile(e, worker)
    ensures var jobs := Next(x, e).sys.jobs;
            worker in jobs <==> worker in x.sys.jobs && (e == Work(Protocol.Report(worker)) ==>
                                  x.sys.jobs[worker].recording in x.sys.db.recordings)
    ensures worker in Next(x, e).sys.jobs ==> Next(x, e).sys.jobs[worker] == x.sys.jobs[worker]
  {
    NextIsSound(x, e);
    var next := Projected(x, e);
    if next.Some? && !next.value.Report? {
      OthersLeaveJob(x.sys, next.value, worker);
    }
  }

  lemma GoneForGood(x: Estate, e: Event, id: Id)
    requires Sound(x) && id < x.sys.db.nextId
    ensures id < Next(x, e).sys.db.nextId
    ensures id !in x.sys.db.recordings ==> id !in Next(x, e).sys.db.recordings
  {
    NextIsSound(x, e);
    var next := Projected(x, e);
    if next.Some? {
      Safety.NextKeeps(x.sys, next.value);
    }
  }

  /** The job is still there, as it was, exactly when no report broke it off. */
  lemma {:induction false} JobIsThereExactly(x: Estate, more: seq<Event>, worker: Protocol.WorkerId)
    requires Sound(x) && worker in x.sys.jobs && (forall k | 0 <= k < |more| :: Meanwhile(more[k], worker))
    ensures var job, late := x.sys.jobs[worker], Run(x, more).sys;
            && job.recording < late.db.nextId
            && if BrokenOff(x, more, worker, job.recording)
               then worker !in late.jobs && job.recording !in late.db.recordings
               else worker in late.jobs && late.jobs[worker] == job
  {
    if more == [] {
      assert Safety.JobOk(x.sys.db, x.sys.jobs[worker]);
    } else {
      var rest, last := more[..|more| - 1], more[|more| - 1];
      JobIsThereExactly(x, rest, worker);
      RunIsSound(x, rest);
      GoneForGood(Run(x, rest), last, x.sys.jobs[worker].recording);
      JobWaits(Run(x, rest), last, worker);
    }
  }

  function Length(duration: Option<Seconds>): Seconds {
    if duration.Some? then duration.value else 0.0
  }

  function Larger(a: Seconds, b: Seconds): Seconds {
    if a > b then a else b
  }

  /** With the fence, the larger of the recording's length and the last segment's end; for a recording deleted
      meanwhile, the length it had when the job was admitted; for one that was replaced or has been transcribed by
      somebody else, nothing; and without a workspace, nothing. */
  function Due(x: Estate, job: Protocol.Job, reply: Protocol.Reply): Seconds
    requires job.Transcription? && reply.Transcribed?
  {
    if Protocol.Holds(x.sys.db, job)
    then Larger(Length(x.sys.db.recordings[job.recording].duration), Protocol.LastEnd(reply.segments))
    else if job.recording in x.sys.db.recordings || job.workspace !in x.house.workspaces then 0.0
    else Length(job.declared)
  }

  lemma HeldCharges(db: Db, job: Protocol.Job, reply: Protocol.Reply, workspace: Id, since: real)
    requires Protocol.Holds(db, job) && reply.Transcribed?
    ensures UsedSeconds(Protocol.StoreTranscript(db, job, reply).ledger, workspace, since)
         == UsedSeconds(db.ledger, workspace, since)
              + if workspace == job.workspace && job.started >= since
                then Larger(Length(db.recordings[job.recording].duration), Protocol.LastEnd(reply.segments)) else 0.0
  {
    var length := Protocol.Measured(db.recordings[job.recording].duration, reply.segments);
    Guarantees.UsedSecondsOfAppend(db.ledger, Protocol.Entry(job, Some(job.recording), true, length), workspace, since);
  }

  lemma FencedCharges(db: Db, job: Protocol.Job, reply: Protocol.Reply, workspace: Id, since: real)
    requires job.Transcription? && !Protocol.Holds(db, job) && reply.Transcribed?
    ensures UsedSeconds(Protocol.FinishJob(db, job, reply).0.ledger, workspace, since)
         == UsedSeconds(db.ledger, workspace, since)
              + if workspace == job.workspace && job.started >= since && job.recording !in db.recordings
                then Length(job.declared) else 0.0
  {
    var ledger := Protocol.FinishJob(db, job, reply).0.ledger;
    assert ledger == db.ledger + [ledger[|db.ledger|]];
    Guarantees.UsedSecondsOfAppend(db.ledger, ledger[|db.ledger|], workspace, since);
  }

  lemma FinishCharges(x: Estate, worker: Protocol.WorkerId, reply: Protocol.Reply, workspace: Id, since: real)
    requires Sound(x) && worker in x.sys.jobs && x.sys.jobs[worker].Transcription? && reply.Transcribed?
    ensures var job, after := x.sys.jobs[worker], Next(x, Work(Protocol.Finish(worker, reply))).sys.db.ledger;
            UsedSeconds(after, workspace, since) == UsedSeconds(x.sys.db.ledger, workspace, since)
              + if workspace == job.workspace && job.started >= since then Due(x, job, reply) else 0.0
  {
    var db, job := x.sys.db, x.sys.jobs[worker];
    assert Safety.JobOk(db, job);
    FinishProjects(x, Protocol.Finish(worker, reply));
    if Protocol.Holds(db, job) {
      HeldCharges(db, job, reply, workspace, since);
    } else {
      FencedCharges(db, job, reply, workspace, since);
    }
  }

  /** What a finished transcription adds to the usage of each workspace, over every run. It is charged to its own, in
      a window that reaches back to when it began, exactly when the recording is still this worker's to write, or it
      was deleted while the workspace stands and no report fell between the deletion and the result. */
  lemma {:induction false} ChargedExactly(events: seq<Event>, more: seq<Event>, worker: Protocol.WorkerId,
        reply: Protocol.Reply, workspace: Id, since: real)
    requires reply.Transcribed? && (forall k | 0 <= k < |more| :: Meanwhile(more[k], worker))
    requires var jobs := Run(INITIAL, events).sys.jobs; worker in jobs && jobs[worker].Transcription?
    ensures var x := Run(INITIAL, events);
            var late, job := Run(x, more), x.sys.jobs[worker];
            var after := Next(late, Work(Protocol.Finish(worker, reply)));
            UsedSeconds(after.sys.db.ledger, workspace, since) == UsedSeconds(late.sys.db.ledger, workspace, since)
              + if workspace != job.workspace || job.started < since || BrokenOff(x, more, worker, job.recording)
                then 0.0 else Due(late, job, reply)
  {
    Reachable(events);
    var x := Run(INITIAL, events);
    RunIsSound(x, more);
    JobIsThereExactly(x, more, worker);
    if worker in Run(x, more).sys.jobs {
      FinishCharges(Run(x, more), worker, reply, workspace, since);
    }
  }

  /* ---------- a recording deleted while it is transcribed ---------- */

  const FILE := File(Signature(1, 1, 1, 1, 1), "hash", "", Some(60.0), None)
  const PATH: Path := ["upload"]
  const FILES: FileSystem := map[PATH := FILE]
  const JOB := Protocol.Transcription(0, 0, 0.0, 0.0, 0, Some(60.0), 3600.0)
  const HOME := Tenancy.House(map[0 := Tenancy.User("user", Some(0))], map[0 := Tenancy.Personal],
                              map[(0, 0) := Tenancy.Owner], map[])
  const UPLOADED := Registered(PATH, FILE, 0, Uploaded, None)

  /** A user signs up and is approved, uploads a minute of audio, and a worker starts on it; then the recording is
      deleted. */
  const SIGN_UP := Tenancy.SignUp(0, "user", 0, true, [], 0.0)
  const SIGNED_UP := Estate(HOME, Protocol.INITIAL, {0})
  const STORED := Estate(HOME, Protocol.System(Db(map[0 := UPLOADED], 1, [], []), map[]), {0})
  const STARTED := Protocol.BeginJob(STORED.sys.db, 0, map[], 0.0, 0.0).0
  const AT_WORK := Estate(HOME, Protocol.System(STARTED, map[0 := JOB]), {0})
  const DELETED := Estate(HOME, Protocol.System(Db(map[], 1, [], [0.0]), map[0 := JOB]), {0})

  lemma SignsUp()
    ensures Next(INITIAL, People(SIGN_UP)) == SIGNED_UP
  {
    var x := Next(INITIAL, People(SIGN_UP));
    assert x.house == HOME;
    assert x.sys.db == Protocol.INITIAL.db;
    assert x.founded == {0};
  }

  lemma Uploads()
    ensures Next(SIGNED_UP, Work(Protocol.Register(FILES, PATH, 0, Uploaded, false))) == STORED
  {
    var db := Protocol.INITIAL.db;
    assert CurrentAt(db, PATH).None?;
    assert FindMoved(db, FILES, "hash", 0).None?;
    assert FindOriginal(db, FILES, FILE, 0).None?;
    assert Place(db, FILES, PATH, 0, Uploaded).db == STORED.sys.db;
  }

  lemma Starts()
    ensures Next(STORED, Work(Protocol.Begin(0, 0, map[], 0.0, 0.0))) == AT_WORK
  {
    assert Claimable(UPLOADED);
    assert Protocol.BeginJob(STORED.sys.db, 0, map[], 0.0, 0.0).1 == Some(JOB);
  }

  lemma Deletes()
    ensures Next(AT_WORK, Work(Protocol.Delete(0))) == DELETED
  {
    assert Next(AT_WORK, Work(Protocol.Delete(0))).sys.db == DELETED.sys.db;
  }

  lemma RunOfAppend(x: Estate, events: seq<Event>, e: Event)
    ensures Run(x, events + [e]) == Next(Run(x, events), e)
  {
    assert (events + [e])[..|events|] == events;
  }

  /** That run ends in `DELETED`. */
  lemma DeletedWhileAtWork() returns (events: seq<Event>)
    ensures Run(INITIAL, events) == DELETED
  {
    events := [];
    SignsUp();
    RunOfAppend(INITIAL, events, People(SIGN_UP));
    events := events + [People(SIGN_UP)];
    Uploads();
    RunOfAppend(INITIAL, events, Work(Protocol.Register(FILES, PATH, 0, Uploaded, false)));
    events := events + [Work(Protocol.Register(FILES, PATH, 0, Uploaded, false))];
    Starts();
    RunOfAppend(INITIAL, events, Work(Protocol.Begin(0, 0, map[], 0.0, 0.0)));
    events := events + [Work(Protocol.Begin(0, 0, map[], 0.0, 0.0))];
    Deletes();
    RunOfAppend(INITIAL, events, Work(Protocol.Delete(0)));
    events := events + [Work(Protocol.Delete(0))];
  }

  /** What comes back then is charged as the minute declared, however much was heard. */
  lemma {:induction false} DeletedIsChargedAsDeclared(reply: Protocol.Reply) returns (events: seq<Event>)
    requires reply.Transcribed?
    ensures var after := Next(Run(INITIAL, events), Work(Protocol.Finish(0, reply)));
            UsedSeconds(after.sys.db.ledger, 0, 0.0) == 60.0
  {
    events := DeletedWhileAtWork();
    assert Run(DELETED, []) == DELETED;
    ChargedExactly(events, [], 0, reply, 0, 0.0);
  }

  /** After one progress report nothing is charged, with nobody rejected and the workspace in place. */
  lemma {:induction false} DeletedAndReportedLosesTheCharge(reply: Protocol.Reply) returns (events: seq<Event>)
    requires reply.Transcribed?
    ensures var late := Next(Run(INITIAL, events), Work(Protocol.Report(0)));
            && 0 in Run(INITIAL, events).sys.jobs
            && 0 in late.house.workspaces
            && UsedSeconds(Next(late, Work(Protocol.Finish(0, reply))).sys.db.ledger, 0, 0.0) == 0.0
  {
    events := DeletedWhileAtWork();
    var more := [Work(Protocol.Report(0))];
    assert more[..0] == [] && Run(DELETED, []) == DELETED;
    assert Run(DELETED, more) == Next(DELETED, more[0]);
    ChargedExactly(events, more, 0, reply, 0, 0.0);
  }

  lemma RejectionDrops()
    requires Sound(DELETED)
    ensures var e := People(Tenancy.Reject(0, {}));
            DroppedAt(DELETED, e, 0) && 0 !in Next(DELETED, e).house.workspaces && Next(DELETED, e).sys == DELETED.sys
  {
    assert Tenancy.Busy(DELETED.sys.db.recordings, DELETED.sys.db.ledger) == {};
    assert Tenancy.Belongs(DELETED.house, 0, 0);
    WorkspaceGoesExactly(DELETED, People(Tenancy.Reject(0, {})), 0);
    PeopleProject(DELETED, Tenancy.Reject(0, {}));
  }

  /** And after the user's rejection neither: it finds an empty workspace and drops it. */
  lemma {:induction false} DeletedAndRejectedLosesTheCharge(reply: Protocol.Reply) returns (events: seq<Event>)
    requires reply.Transcribed?
    ensures var late := Next(Run(INITIAL, events), People(Tenancy.Reject(0, {})));
            && 0 in late.sys.jobs
            && DroppedAt(Run(INITIAL, events), People(Tenancy.Reject(0, {})), 0)
            && UsedSeconds(Next(late, Work(Protocol.Finish(0, reply))).sys.db.ledger, 0, 0.0) == 0.0
  {
    events := DeletedWhileAtWork();
    Reachable(events);
    var more := [People(Tenancy.Reject(0, {}))];
    assert more[..0] == [] && Run(DELETED, []) == DELETED;
    assert Run(DELETED, more) == Next(DELETED, more[0]);
    RejectionDrops();
    ChargedExactly(events, more, 0, reply, 0, 0.0);
  }
}
