/** Scanning an unchanged file system again: when the second scan finds nothing to do. */
module Rescan {
  import opened Records
  import opened Ingest
  import opened Protocol
  import opened Safety
  import opened Scan

  /* ---------- paths at rest ---------- */

  predicate UploadAt(recs: Table, path: Path, workspace: Id, id: Id) {
    id in recs && SitsAt(recs[id], path) && recs[id].workspace == workspace && recs[id].source != Scanned
  }

  /** An upload of this workspace sits at the path: a scan refuses to touch it. */
  predicate HeldByUpload(recs: Table, path: Path, workspace: Id) {
    exists id | id in recs :: UploadAt(recs, path, workspace, id)
  }

  /** A path whose visit has nothing to do. */
  predicate Quiet(recs: Table, fs: FileSystem, path: Path, workspace: Id) {
    Settled(recs, fs, path, workspace) || HeldByUpload(recs, path, workspace)
  }

  predicate Vacant(recs: Table, path: Path) {
    forall id | id in recs :: !SitsAt(recs[id], path)
  }

  predicate AtRest(recs: Table, fs: FileSystem, path: Path, workspace: Id) {
    Quiet(recs, fs, path, workspace) || Vacant(recs, path)
  }

  predicate AllAtRest(recs: Table, fs: FileSystem, paths: seq<Path>, workspace: Id) {
    forall k | 0 <= k < |paths| :: AtRest(recs, fs, paths[k], workspace)
  }

  lemma VisitQuiets(db: Db, fs: FileSystem, path: Path, workspace: Id)
    requires RowsOk(db) && OnePerPath(db.recordings) && path in fs
    ensures Quiet(AfterVisit(db, fs, path, workspace).recordings, fs, path, workspace)
  {
    if id :| id in db.recordings && UploadAt(db.recordings, path, workspace, id) {
      CurrentIs(db, path, id);
    } else {
      VisitSettles(db, fs, path, workspace);
    }
  }

  /** No row comes to a path but the one visited. */
  lemma NoArrivals(db: Db, fs: FileSystem, path: Path, workspace: Id, other: Path)
    requires RowsOk(db) && other != path
    ensures var recs := AfterVisit(db, fs, path, workspace).recordings;
            forall id | id in recs && SitsAt(recs[id], other) :: id in db.recordings && db.recordings[id] == recs[id]
  {
    VisitTouches(db, fs, path, workspace);
    var recs := AfterVisit(db, fs, path, workspace).recordings;
    forall id | id in recs && SitsAt(recs[id], other)
      ensures id in db.recordings && db.recordings[id] == recs[id]
    {
      assert recs == db.recordings || Touched(db.recordings, id, recs[id], path, workspace);
    }
  }

  /** A visit elsewhere leaves a settled path settled and a vacant one vacant; an upload it may take away. */
  lemma VisitKeepsRest(db: Db, fs: FileSystem, path: Path, workspace: Id, other: Path)
    requires RowsOk(db) && OnePerPath(db.recordings) && other != path
    ensures var recs := AfterVisit(db, fs, path, workspace).recordings;
            && (Vacant(db.recordings, other) ==> Vacant(recs, other))
            && (AtRest(db.recordings, fs, other, workspace) ==> AtRest(recs, fs, other, workspace))
  {
    NoArrivals(db, fs, path, workspace, other);
    var recs := AfterVisit(db, fs, path, workspace).recordings;
    if Settled(db.recordings, fs, other, workspace) {
      VisitKeepsSettled(db, fs, path, workspace, other);
    } else if HeldByUpload(db.recordings, other, workspace) && !Vacant(recs, other) {
      var held :| held in db.recordings && UploadAt(db.recordings, other, workspace, held);
      var id :| id in recs && SitsAt(recs[id], other);
      assert id == held && UploadAt(recs, other, workspace, id);
    }
  }

  lemma OneMoreRests(db: Db, fs: FileSystem, paths: seq<Path>, workspace: Id, path: Path, other: Path)
    requires DbInv(db) && path in fs && AllAtRest(db.recordings, fs, paths, workspace)
    ensures var after := AfterVisit(db, fs, path, workspace);
            && DbInv(after)
            && AllAtRest(after.recordings, fs, paths + [path], workspace)
            && (other != path && Vacant(db.recordings, other) ==> Vacant(after.recordings, other))
  {
    RegisterKeeps(db, fs, path, workspace, Scanned, true);
    VisitQuiets(db, fs, path, workspace);
    forall k | 0 <= k < |paths| && paths[k] != path
      ensures AtRest(AfterVisit(db, fs, path, workspace).recordings, fs, paths[k], workspace)
    {
      VisitKeepsRest(db, fs, path, workspace, paths[k]);
    }
    if other != path {
      VisitKeepsRest(db, fs, path, workspace, other);
    }
  }

  /** After the visits every path has nothing left to do, or has lost its upload to a path visited later. */
  lemma {:induction false} VisitsRest(db: Db, fs: FileSystem, paths: seq<Path>, workspace: Id, other: Path)
    requires DbInv(db) && (forall k | 0 <= k < |paths| :: paths[k] in fs)
    ensures var after := VisitAll(db, fs, paths, workspace).0;
            && DbInv(after)
            && AllAtRest(after.recordings, fs, paths, workspace)
            && (other !in paths && Vacant(db.recordings, other) ==> Vacant(after.recordings, other))
  {
    if paths != [] {
      var first, path := paths[..|paths| - 1], paths[|paths| - 1];
      VisitsRest(db, fs, first, workspace, other);
      assert first + [path] == paths;
      VisitAllUnfolds(db, fs, paths, workspace);
      OneMoreRests(VisitAll(db, fs, first, workspace).0, fs, first, workspace, path, other);
    }
  }

  lemma SweepKeepsRest(db: Db, fs: FileSystem, gone: set<Id>, path: Path, workspace: Id)
    requires forall id | id in gone && id in db.recordings :: db.recordings[id].path != path
    requires AtRest(db.recordings, fs, path, workspace)
    ensures AtRest(Swept(db, gone).recordings, fs, path, workspace)
  {
    var recs := Swept(db, gone).recordings;
    if Settled(db.recordings, fs, path, workspace) {
      SweepKeepsSettled(db, fs, gone, path, workspace);
    } else if id :| id in db.recordings && UploadAt(db.recordings, path, workspace, id) {
      assert UploadAt(recs, path, workspace, id);
    }
  }

  lemma ScanRests(db: Db, fs: FileSystem, paths: seq<Path>, walks: seq<Walk>, stat: Path -> DirStat, workspace: Id)
    requires DbInv(db) && (forall k | 0 <= k < |paths| :: paths[k] in fs)
    ensures var once := ScanPaths(db, fs, paths, walks, stat, workspace).0;
            DbInv(once) && AllAtRest(once.recordings, fs, paths, workspace)
  {
    VisitsRest(db, fs, paths, workspace, []);
    var visited := VisitAll(db, fs, paths, workspace).0;
    var gone := ToSweep(visited.recordings, walks, stat, PathSet(paths), workspace);
    SweepFrames(visited, gone);
    FramedKeeps(visited, Swept(visited, gone));
    forall k | 0 <= k < |paths|
      ensures AtRest(Swept(visited, gone).recordings, fs, paths[k], workspace)
    {
      assert paths[k] in PathSet(paths);
      SweepKeepsRest(visited, fs, gone, paths[k], workspace);
    }
  }

  /* ---------- the second pass over quiet paths ---------- */

  /** A scanned row at one of these paths with an old "source changed" note, which a moved row carries along. */
  predicate Noted(r: Recording, paths: seq<Path>, workspace: Id) {
    r.pathCurrent && r.path in paths && r.workspace == workspace && r.source == Scanned && r.error == SourceChanged
  }

  /** The same database without these notes. */
  function Unnoted(db: Db, paths: seq<Path>, workspace: Id): Db {
    Mapped(db, (_, r: Recording) => if Noted(r, paths, workspace) then r.(error := NoError) else r)
  }

  lemma UnnotedTwice(db: Db, paths: seq<Path>, path: Path, workspace: Id)
    ensures Unnoted(Unnoted(db, paths, workspace), [path], workspace) == Unnoted(db, paths + [path], workspace)
  {
    assert Unnoted(Unnoted(db, paths, workspace), [path], workspace).recordings
        == Unnoted(db, paths + [path], workspace).recordings;
  }

  lemma Keeper(recs: Table, fs: FileSystem, path: Path, workspace: Id) returns (id: Id)
    requires Quiet(recs, fs, path, workspace)
    ensures id in recs && SitsAt(recs[id], path)
    ensures SettledBy(recs, fs, path, workspace, id) || Foreign(recs, path, workspace, id)
          || UploadAt(recs, path, workspace, id)
  {
    if Settled(recs, fs, path, workspace) {
      id :| id in recs && (SettledBy(recs, fs, path, workspace, id) || Foreign(recs, path, workspace, id));
    } else {
      id :| id in recs && UploadAt(recs, path, workspace, id);
    }
  }

  lemma NotNoted(db: Db, path: Path, workspace: Id, id: Id)
    requires OnePerPath(db.recordings) && id in db.recordings && SitsAt(db.recordings[id], path)
    requires db.recordings[id].workspace != workspace || db.recordings[id].source != Scanned
    ensures Unnoted(db, [path], workspace) == db
  {
    assert Unnoted(db, [path], workspace).recordings == db.recordings;
  }

  lemma RefreshedIsUnnoted(db: Db, fs: FileSystem, path: Path, workspace: Id, id: Id)
    requires OnePerPath(db.recordings) && SettledBy(db.recordings, fs, path, workspace, id)
    requires db.recordings[id].source == Scanned
    ensures WithRow(db, id, Refreshed(db.recordings[id], fs[path])) == Unnoted(db, [path], workspace)
  {
    var r := db.recordings[id];
    assert Refreshed(r, fs[path]) == if r.error == SourceChanged then r.(error := NoError) else r;
    assert WithRow(db, id, Refreshed(r, fs[path])).recordings == Unnoted(db, [path], workspace).recordings;
  }

  lemma QuietVisit(db: Db, fs: FileSystem, path: Path, workspace: Id)
    requires RowsOk(db) && OnePerPath(db.recordings) && Quiet(db.recordings, fs, path, workspace)
    ensures var result := Visit(db, fs, path, workspace);
            && (result.Ingested? ==> result.outcome == Existing)
            && AfterVisit(db, fs, path, workspace) == Unnoted(db, [path], workspace)
  {
    var id := Keeper(db.recordings, fs, path, workspace);
    CurrentIs(db, path, id);
    var r := db.recordings[id];
    if r.workspace != workspace || r.source != Scanned {
      NotNoted(db, path, workspace, id);
    } else {
      RefreshedIsUnnoted(db, fs, path, workspace, id);
    }
  }

  /** Taking notes away unsettles nothing. */
  lemma UnnotedKeepsQuiet(db: Db, fs: FileSystem, paths: seq<Path>, path: Path, workspace: Id)
    requires Quiet(db.recordings, fs, path, workspace)
    ensures Quiet(Unnoted(db, paths, workspace).recordings, fs, path, workspace)
  {
    var recs := Unnoted(db, paths, workspace).recordings;
    var id := Keeper(db.recordings, fs, path, workspace);
    if SettledBy(db.recordings, fs, path, workspace, id) {
      assert SettledBy(recs, fs, path, workspace, id);
    } else if Foreign(db.recordings, path, workspace, id) {
      assert Foreign(recs, path, workspace, id);
    } else {
      assert UploadAt(recs, path, workspace, id);
    }
  }

  lemma UnnotedKeepsRows(db: Db, paths: seq<Path>, workspace: Id)
    requires RowsOk(db) && OnePerPath(db.recordings)
    ensures RowsOk(Unnoted(db, paths, workspace)) && OnePerPath(Unnoted(db, paths, workspace).recordings)
  {
    assert forall id | id in db.recordings :: RowOk(db.recordings[id], db.issued);
  }

  /** Visiting paths that have nothing to do counts nothing, and takes away the old notes there and nothing else. */
  lemma {:induction false} QuietVisits(db: Db, fs: FileSystem, paths: seq<Path>, workspace: Id)
    requires RowsOk(db) && OnePerPath(db.recordings)
    requires forall k | 0 <= k < |paths| :: Quiet(db.recordings, fs, paths[k], workspace)
    ensures VisitAll(db, fs, paths, workspace) == (Unnoted(db, paths, workspace), NOTHING)
  {
    if paths == [] {
      assert Unnoted(db, [], workspace).recordings == db.recordings;
    } else {
      var first, path := paths[..|paths| - 1], paths[|paths| - 1];
      QuietVisits(db, fs, first, workspace);
      OneMoreQuietVisit(db, fs, first, path, workspace);
      assert first + [path] == paths;
    }
  }

  lemma OneMoreQuietVisit(db: Db, fs: FileSystem, first: seq<Path>, path: Path, workspace: Id)
    requires RowsOk(db) && OnePerPath(db.recordings) && Quiet(db.recordings, fs, path, workspace)
    requires VisitAll(db, fs, first, workspace) == (Unnoted(db, first, workspace), NOTHING)
    ensures VisitAll(db, fs, first + [path], workspace) == (Unnoted(db, first + [path], workspace), NOTHING)
  {
    var before := Unnoted(db, first, workspace);
    UnnotedKeepsRows(db, first, workspace);
    UnnotedKeepsQuiet(db, fs, first, path, workspace);
    QuietVisit(before, fs, path, workspace);
    UnnotedTwice(db, first, path, workspace);
    AppendedQuietly(db, fs, first, path, workspace, before);
  }

  lemma AppendedQuietly(db: Db, fs: FileSystem, first: seq<Path>, path: Path, workspace: Id, before: Db)
    requires VisitAll(db, fs, first, workspace) == (before, NOTHING)
    requires var result := Visit(before, fs, path, workspace); result.Ingested? ==> result.outcome == Existing
    ensures VisitAll(db, fs, first + [path], workspace) == (AfterVisit(before, fs, path, workspace), NOTHING)
  {
    assert (first + [path])[..|first|] == first;
  }

  /* ---------- a vacant path is noticed ---------- */

  predicate Busy(stats: Stats) {
    stats.created + stats.duplicate + stats.reappeared + stats.moved > 0
  }

  lemma VacantVisit(db: Db, fs: FileSystem, path: Path, workspace: Id)
    requires Vacant(db.recordings, path) && path in fs
    ensures var result := Visit(db, fs, path, workspace);
            result.Ingested? && forall stats :: Busy(Counted(stats, result.outcome))
  {
  }

  lemma {:induction false} VacancyCounts(db: Db, fs: FileSystem, paths: seq<Path>, workspace: Id, path: Path)
    requires DbInv(db) && (forall k | 0 <= k < |paths| :: paths[k] in fs)
    requires path in paths && Vacant(db.recordings, path)
    ensures Busy(VisitAll(db, fs, paths, workspace).1)
  {
    var first, last := paths[..|paths| - 1], paths[|paths| - 1];
    var (before, stats) := VisitAll(db, fs, first, workspace);
    if path in first {
      VacancyCounts(db, fs, first, workspace, path);
      assert forall outcome :: Busy(Counted(stats, outcome));
    } else {
      VisitsRest(db, fs, first, workspace, path);
      VacantVisit(before, fs, last, workspace);
    }
  }

  /* ---------- the theorem ---------- */

  /** After a sweep, what is still missed under a root is what was held back there, and it is held back again. */
  lemma NothingLeftToSweep(visited: Db, paths: seq<Path>, walks: seq<Walk>, stat: Path -> DirStat, seen: set<Path>,
        workspace: Id)
    ensures var once := Swept(visited, ToSweep(visited.recordings, walks, stat, seen, workspace));
            ToSweep(Unnoted(once, paths, workspace).recordings, walks, stat, seen, workspace) == {}
  {
    var recs := visited.recordings;
    var swept := ToSweep(recs, walks, stat, seen, workspace);
    var recs' := Unnoted(Swept(visited, swept), paths, workspace).recordings;
    forall id | id in recs'
      ensures Gone(recs'[id], walks, stat, seen, workspace) <==>
            Gone(recs[id], walks, stat, seen, workspace) && id !in swept
      ensures recs'[id].path == recs[id].path
    {
      assert recs'[id] == Swept(visited, swept).recordings[id].(error := recs'[id].error);
    }
    forall id | id in recs' && Gone(recs'[id], walks, stat, seen, workspace)
      ensures HeldBack(recs', walks, stat, seen, workspace, Owner(walks, recs'[id].path).value)
    {
      var root := Owner(walks, recs[id].path).value;
      assert HeldBack(recs, walks, stat, seen, workspace, root);
      assert GoneUnder(recs', walks, stat, seen, workspace, root)
          == GoneUnder(recs, walks, stat, seen, workspace, root) by {
        forall i | i in GoneUnder(recs, walks, stat, seen, workspace, root)
          ensures i !in swept
        {
        }
      }
    }
  }

  lemma SweptNothing(db: Db)
    ensures Swept(db, {}) == db
  {
    assert Swept(db, {}).recordings == db.recordings;
  }

  predicate NoneVacant(recs: Table, paths: seq<Path>) {
    forall k | 0 <= k < |paths| :: !Vacant(recs, paths[k])
  }

  /** A second scan of an unchanged file system counts nothing, and takes away the old notes at the visited paths and
      nothing else, exactly when the first left a current row at every path it visited: duplicates, nested roots, roots
      not read to the end and roots held back included. */
  lemma {:induction false} ScanIsIdempotentIffNoneVacant(db: Db, fs: FileSystem, walks: seq<Walk>,
        stat: Path -> DirStat,
        workspace: Id)
    requires DbInv(db) && (forall k | 0 <= k < |ToVisit(walks)| :: ToVisit(walks)[k] in fs)
    ensures var (once, _) := ScanFolders(db, fs, walks, stat, workspace);
            ScanFolders(once, fs, walks, stat, workspace) == (Unnoted(once, ToVisit(walks), workspace), NOTHING)
            <==> NoneVacant(once.recordings, ToVisit(walks))
  {
    var paths := ToVisit(walks);
    ScanRests(db, fs, paths, walks, stat, workspace);
    var once := ScanPaths(db, fs, paths, walks, stat, workspace).0;
    if NoneVacant(once.recordings, paths) {
      QuietVisits(once, fs, paths, workspace);
      NothingLeftToSweep(VisitAll(db, fs, paths, workspace).0, paths, walks, stat, PathSet(paths), workspace);
      SweptNothing(Unnoted(once, paths, workspace));
    } else {
      VacancyShows(db, fs, walks, stat, workspace);
    }
  }

  lemma UnnotedIsSameExactly(db: Db, paths: seq<Path>, workspace: Id)
    ensures Unnoted(db, paths, workspace) == db <==> forall id | id in db.recordings ::
          !Noted(db.recordings[id], paths, workspace)
  {
    var recs := Unnoted(db, paths, workspace).recordings;
    if forall id | id in db.recordings :: !Noted(db.recordings[id], paths, workspace) {
      assert recs == db.recordings;
    }
    if id :| id in db.recordings && Noted(db.recordings[id], paths, workspace) {
      assert recs[id].error != db.recordings[id].error;
    }
  }

  /** And it changes nothing at all exactly when, besides, no visited path has such a note. */
  lemma NothingChangesExactly(db: Db, fs: FileSystem, walks: seq<Walk>, stat: Path -> DirStat, workspace: Id)
    requires DbInv(db) && (forall k | 0 <= k < |ToVisit(walks)| :: ToVisit(walks)[k] in fs)
    ensures var (once, _) := ScanFolders(db, fs, walks, stat, workspace);
            ScanFolders(once, fs, walks, stat, workspace) == (once, NOTHING)
            <==> && NoneVacant(once.recordings, ToVisit(walks))
                 && forall id | id in once.recordings :: !Noted(once.recordings[id], ToVisit(walks), workspace)
  {
    var paths := ToVisit(walks);
    var once := ScanFolders(db, fs, walks, stat, workspace).0;
    ScanIsIdempotentIffNoneVacant(db, fs, walks, stat, workspace);
    UnnotedIsSameExactly(once, paths, workspace);
    if !NoneVacant(once.recordings, paths) {
      VacancyShows(db, fs, walks, stat, workspace);
    }
  }

  lemma {:induction false} VacancyShows(db: Db, fs: FileSystem, walks: seq<Walk>, stat: Path -> DirStat, workspace: Id)
    requires DbInv(db) && (forall k | 0 <= k < |ToVisit(walks)| :: ToVisit(walks)[k] in fs)
    requires !NoneVacant(ScanFolders(db, fs, walks, stat, workspace).0.recordings, ToVisit(walks))
    ensures var (once, _) := ScanFolders(db, fs, walks, stat, workspace);
            ScanFolders(once, fs, walks, stat, workspace).1 != NOTHING
  {
    var paths := ToVisit(walks);
    var once := ScanFolders(db, fs, walks, stat, workspace).0;
    ScanRests(db, fs, paths, walks, stat, workspace);
    var k :| 0 <= k < |paths| && Vacant(once.recordings, paths[k]);
    VacancyCounts(once, fs, paths, workspace, paths[k]);
  }

  /** So scanning twice is scanning once where no overwritten upload sits at a visited path. */
  lemma {:induction false} ScanIsIdempotent(db: Db, fs: FileSystem, walks: seq<Walk>, stat: Path -> DirStat,
        workspace: Id)
    requires DbInv(db)
    requires forall k | 0 <= k < |ToVisit(walks)| ::
               ToVisit(walks)[k] in fs && FreeOfUploads(db.recordings, fs, ToVisit(walks)[k], workspace)
    ensures var (once, _) := ScanFolders(db, fs, walks, stat, workspace);
            ScanFolders(once, fs, walks, stat, workspace) == (Unnoted(once, ToVisit(walks), workspace), NOTHING)
  {
    var paths := ToVisit(walks);
    ToVisitDistinct(walks);
    ScanSettles(db, fs, paths, walks, stat, workspace);
    var once := ScanPaths(db, fs, paths, walks, stat, workspace).0;
    assert NoneVacant(once.recordings, paths);
    ScanIsIdempotentIffNoneVacant(db, fs, walks, stat, workspace);
  }
}
