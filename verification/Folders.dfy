/** The upload folder and the scanned folders, which do not overlap: how an upload comes to a scanned path all the same,
    and what that does to scanning. */
module Folders {
  import opened Records
  import opened Ingest
  import opened Protocol
  import opened Safety
  import opened Scan
  import opened Rescan

  /** Uploads are registered under the folder `up`, scanned files outside of it. */
  predicate Apart(e: Event, up: Path) {
    e.Register? ==> (e.source == Uploaded <==> up <= e.path)
  }

  /** The row a registration takes for the former place of its file. */
  function MovedRow(db: Db, e: Event): Option<Id> {
    if !e.Register? then None
    else
      var result := IngestFile(db, e.fs, e.path, e.workspace, e.source, e.verifyExisting);
      if result.Ingested? && result.outcome == Moved then Some(result.id) else None
  }

  /** A scan takes along an upload, or an upload a scanned row: `find_moved` does not ask for the source. */
  predicate Crosses(db: Db, e: Event, id: Id) {
    MovedRow(db, e) == Some(id) && id in db.recordings && db.recordings[id].source != e.source
  }

  predicate Strays(r: Recording, up: Path) {
    (r.source == Uploaded) != (up <= r.path)
  }

  /* ---------- strays come by moves ---------- */

  /** Where a registration at `path` can leave a row: where it was, or, new or moved, at that path. */
  predicate Arrives(recs: Table, id: Id, r: Recording, path: Path, source: Source, moved: bool) {
    if id in recs then r.source == recs[id].source && (r.path == recs[id].path || (moved && r.path == path))
    else r.path == path && r.source == source
  }

  lemma PlacingArrives(db: Db, fs: FileSystem, path: Path, workspace: Id, source: Source, id: Id)
    requires path in fs && db.nextId !in db.recordings
    ensures var result := Place(db, fs, path, workspace, source);
            id in result.db.recordings ==>
              Arrives(db.recordings, id, result.db.recordings[id], path, source,
                      result.outcome == Moved && result.id == id)
  {
  }

  lemma LettingGoArrives(recs: Table, holder: Id, id: Id, r: Recording, path: Path, source: Source, moved: bool)
    requires holder in recs
    ensures Arrives(recs[holder := LetGo(recs[holder])], id, r, path, source, moved)
       <==> Arrives(recs, id, r, path, source, moved)
  {
  }

  lemma RevisitingArrives(db: Db, holder: Id, fs: FileSystem, path: Path, workspace: Id, source: Source,
        verifyExisting: bool, id: Id)
    requires path in fs && db.nextId !in db.recordings && holder in db.recordings
    ensures var result := Revisit(db, holder, fs, path, workspace, source, verifyExisting);
            result.Ingested? && id in result.db.recordings ==>
              Arrives(db.recordings, id, result.db.recordings[id], path, source,
                      result.outcome == Moved && result.id == id)
  {
    var result := Revisit(db, holder, fs, path, workspace, source, verifyExisting);
    var let := WithRow(db, holder, LetGo(db.recordings[holder]));
    if result.Ingested? && id in result.db.recordings && result == Place(let, fs, path, workspace, source) {
      PlacingArrives(let, fs, path, workspace, source, id);
      LettingGoArrives(db.recordings, holder, id, result.db.recordings[id], path, source,
                       result.outcome == Moved && result.id == id);
    }
  }

  lemma RegisteringArrives(db: Db, e: Event, id: Id)
    requires RowsOk(db) && e.Register?
    ensures var result := IngestFile(db, e.fs, e.path, e.workspace, e.source, e.verifyExisting);
            result.Ingested? && id in result.db.recordings ==>
              Arrives(db.recordings, id, result.db.recordings[id], e.path, e.source, MovedRow(db, e) == Some(id))
  {
    assert db.nextId !in db.recordings;
    if e.path in e.fs {
      var existing := CurrentAt(db, e.path);
      if existing.Some? {
        RevisitingArrives(db, existing.value, e.fs, e.path, e.workspace, e.source, e.verifyExisting, id);
      } else {
        PlacingArrives(db, e.fs, e.path, e.workspace, e.source, id);
      }
    }
  }

  predicate SamePlace(was: Table, now: Table, id: Id)
    requires id in now
  {
    id in was && now[id].path == was[id].path && now[id].source == was[id].source
  }

  lemma BeginLeavesPaths(s: System, e: Event, id: Id)
    requires e.Begin? && id in Next(s, e).db.recordings
    ensures SamePlace(s.db.recordings, Next(s, e).db.recordings, id)
  {
  }

  lemma FinishLeavesPaths(s: System, e: Event, id: Id)
    requires (e.Finish? || e.EndSummary?) && id in Next(s, e).db.recordings
    ensures SamePlace(s.db.recordings, Next(s, e).db.recordings, id)
  {
  }

  lemma OthersLeavePaths(s: System, e: Event, id: Id)
    requires !e.Register? && id in Next(s, e).db.recordings
    ensures SamePlace(s.db.recordings, Next(s, e).db.recordings, id)
  {
    match e {
      case Begin(_, _, _, _, _) => BeginLeavesPaths(s, e, id);
      case Finish(_, _) => FinishLeavesPaths(s, e, id);
      case EndSummary(_, _, _) => FinishLeavesPaths(s, e, id);
      case _ =>
    }
  }

  /** What one step can do to make a stray. */
  lemma StepStrays(s: System, e: Event, up: Path, id: Id)
    requires RowsOk(s.db) && Apart(e, up) && id in Next(s, e).db.recordings && Strays(Next(s, e).db.recordings[id], up)
    ensures var was, now := s.db.recordings, Next(s, e).db.recordings;
            || (Crosses(s.db, e, id) && e.path == now[id].path)
            || (id in was && Strays(was[id], up) && now[id].path == was[id].path)
  {
    if e.Register? {
      RegisteringArrives(s.db, e, id);
    } else {
      OthersLeavePaths(s, e, id);
    }
  }

  /** Somewhere in the run a registration took the row across to this path. */
  predicate TakenAcross(events: seq<Event>, id: Id, path: Path) {
    events != [] &&
    (var rest, last := events[..|events| - 1], events[|events| - 1];
     TakenAcross(rest, id, path) || (Crosses(Run(INITIAL, rest).db, last, id) && last.path == path))
  }

  /** With the folders apart, a recording is on the other side only because a move took it across, to the very path
      where it is: over every run. */
  lemma {:induction false} StraysWereMoved(events: seq<Event>, up: Path, id: Id)
    requires forall k | 0 <= k < |events| :: Apart(events[k], up)
    ensures var recs := Run(INITIAL, events).db.recordings;
            id in recs && Strays(recs[id], up) ==> TakenAcross(events, id, recs[id].path)
  {
    if events != [] {
      var rest, last := events[..|events| - 1], events[|events| - 1];
      StraysWereMoved(rest, up, id);
      RunKeeps(INITIAL, rest);
      var recs := Next(Run(INITIAL, rest), last).db.recordings;
      if id in recs && Strays(recs[id], up) {
        StepStrays(Run(INITIAL, rest), last, up, id);
      }
    }
  }

  /** So where no row was ever taken out of the upload folder, scanning twice is scanning once, in every reachable
      database and whatever has happened to the files. */
  lemma {:induction false} ApartScansOnce(events: seq<Event>, up: Path, fs: FileSystem, walks: seq<Walk>,
        stat: Path -> DirStat, workspace: Id)
    requires forall k | 0 <= k < |events| :: Apart(events[k], up)
    requires forall id, path :: TakenAcross(events, id, path) ==> up <= path
    requires forall k | 0 <= k < |ToVisit(walks)| :: ToVisit(walks)[k] in fs && !(up <= ToVisit(walks)[k])
    ensures var (once, _) := ScanFolders(Run(INITIAL, events).db, fs, walks, stat, workspace);
            ScanFolders(once, fs, walks, stat, workspace) == (Unnoted(once, ToVisit(walks), workspace), NOTHING)
  {
    var db, paths := Run(INITIAL, events).db, ToVisit(walks);
    RunKeeps(INITIAL, events);
    forall k | 0 <= k < |paths|
      ensures FreeOfUploads(db.recordings, fs, paths[k], workspace)
    {
      forall id | id in db.recordings && SitsAt(db.recordings[id], paths[k])
        ensures db.recordings[id].source == Scanned
      {
        StraysWereMoved(events, up, id);
      }
    }
    ScanIsIdempotent(db, fs, walks, stat, workspace);
  }

  /* ---------- an upload among the scanned files ---------- */

  const UPLOADS: Path := ["uploads"]
  const SCANNED: Path := ["audio"]
  const U: Path := ["uploads", "a"]
  const P: Path := ["audio", "a"]
  const Q: Path := ["audio", "b"]
  const OLD := File(Signature(1, 1, 1, 1, 1), "old", "", None, None)
  const NEW := File(Signature(1, 2, 1, 1, 1), "new", "", None, None)
  const OLD_AGAIN := File(Signature(1, 3, 1, 1, 1), "old", "", None, None)

  /** A file is uploaded, then moved into the scanned folder and scanned there. */
  const UPLOAD := Register(map[U := OLD], U, 0, Uploaded, false)
  const RESCAN := Register(map[P := OLD], P, 0, Scanned, true)
  const BEFORE := Db(map[0 := Registered(U, OLD, 0, Uploaded, None)], 1, [], [])
  const STRAY := MovedTo(Registered(U, OLD, 0, Uploaded, None), P, OLD)
  const STRAYED := Db(map[0 := STRAY], 1, [], [])

  /** Later the file is overwritten, and its old content is there under another name. */
  const FILES: FileSystem := map[P := NEW, Q := OLD_AGAIN]
  const WALKS := [Walk(SCANNED, [P, Q], true)]
  const ONCE := WithRow(STRAYED, 0, MovedTo(STRAY, Q, OLD_AGAIN))
  const TWICE := WithRow(ONCE, 1, Registered(P, NEW, 0, Scanned, None)).(nextId := 2)

  lemma Paths()
    ensures P != Q && U != P && ToVisit(WALKS) == [P, Q]
    ensures Apart(UPLOAD, UPLOADS) && Apart(RESCAN, UPLOADS) && !(UPLOADS <= P) && !(UPLOADS <= Q)
  {
    assert P[1] != Q[1] && U[0] != P[0] && UPLOADS[0] != P[0] && UPLOADS[0] != Q[0];
    assert WALKS[..0] == [] && [P, Q][..1] == [P] && [P][..0] == [];
    assert Fresh(SCANNED, [P], []) == [P];
  }

  lemma Stored()
    ensures Next(INITIAL, UPLOAD).db == BEFORE
  {
    assert FindMoved(INITIAL.db, map[U := OLD], "old", 0).None?;
    assert FindOriginal(INITIAL.db, map[U := OLD], OLD, 0).None?;
  }

  lemma Strayed(s: System)
    requires s.db == BEFORE
    ensures Next(s, RESCAN).db == STRAYED
  {
    Paths();
    assert CurrentAt(BEFORE, P).None?;
    assert FindMoved(BEFORE, map[P := OLD], "old", 0) == Some(0);
  }

  lemma RunOfTwo(a: Event, b: Event)
    ensures Run(INITIAL, [a, b]) == Next(Next(INITIAL, a), b)
  {
    assert [a, b][..1] == [a] && [a][..0] == [];
    assert Run(INITIAL, []) == INITIAL;
    assert Run(INITIAL, [a]) == Next(INITIAL, a);
  }

  lemma TwoVisits(db: Db)
    ensures VisitAll(db, FILES, [P, Q], 0) ==
              var (one, stats) := VisitAll(db, FILES, [P], 0);
              var result := Visit(one, FILES, Q, 0);
              if result.Ingested? then (result.db, Counted(stats, result.outcome)) else (one, stats)
    ensures VisitAll(db, FILES, [P], 0) ==
              var result := Visit(db, FILES, P, 0);
              if result.Ingested? then (result.db, Counted(NOTHING, result.outcome)) else (db, NOTHING)
  {
    assert [P, Q][..1] == [P] && [P][..0] == [];
  }

  /** P is refused, and the upload moves to Q. */
  lemma FirstVisits()
    ensures VisitAll(STRAYED, FILES, [P, Q], 0).0 == ONCE
  {
    TwoVisits(STRAYED);
    Paths();
    assert Visit(STRAYED, FILES, P, 0) == Refused(PathTaken) by {
      assert CurrentAt(STRAYED, P) == Some(0);
    }
    assert CurrentAt(STRAYED, Q).None?;
    assert FindMoved(STRAYED, FILES, "old", 0) == Some(0);
  }

  /** P is vacant now, and its file is registered. */
  lemma SecondVisits()
    ensures VisitAll(ONCE, FILES, [P, Q], 0).1 == NOTHING.(created := 1)
  {
    TwoVisits(ONCE);
    Paths();
    assert Visit(ONCE, FILES, P, 0) == Ingested(TWICE, 1, New) by {
      assert CurrentAt(ONCE, P).None?;
      assert FindMoved(ONCE, FILES, "new", 0).None?;
      assert FindOriginal(ONCE, FILES, NEW, 0).None?;
    }
    assert CurrentAt(TWICE, Q) == Some(0);
  }

  lemma NothingToSweep(stat: Path -> DirStat)
    ensures ScanFolders(STRAYED, FILES, WALKS, stat, 0).0 == ONCE
  {
    Paths();
    FirstVisits();
    assert ToSweep(ONCE.recordings, WALKS, stat, PathSet([P, Q]), 0) == {};
    assert Swept(ONCE, {}).recordings == ONCE.recordings;
  }

  /** A run with the folders apart, and files, for which the second of two scans still registers a recording: the move
      takes an upload to a scanned path, its file is overwritten, and the first scan carries it off. */
  lemma {:induction false} MovedUploadBreaksIdempotence(stat: Path -> DirStat) returns (events: seq<Event>)
    ensures forall k | 0 <= k < |events| :: Apart(events[k], UPLOADS)
    ensures forall k | 0 <= k < |ToVisit(WALKS)| :: ToVisit(WALKS)[k] in FILES && !(UPLOADS <= ToVisit(WALKS)[k])
    ensures var (once, _) := ScanFolders(Run(INITIAL, events).db, FILES, WALKS, stat, 0);
            ScanFolders(once, FILES, WALKS, stat, 0).1.created == 1
  {
    events := [UPLOAD, RESCAN];
    Paths();
    RunOfTwo(UPLOAD, RESCAN);
    Stored();
    Strayed(Next(INITIAL, UPLOAD));
    NothingToSweep(stat);
    SecondVisits();
  }
}
