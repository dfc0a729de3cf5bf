/** Renames, moves, swaps and cycles of files: identity follows content through a scan. */
module Renaming {
  import opened Records
  import opened Ingest
  import opened Protocol
  import opened Safety
  import opened Scan

  /** No two files have the same content. */
  predicate DistinctFiles(fs: FileSystem) {
    forall p, q | p in fs && q in fs && fs[p].hash == fs[q].hash :: p == q
  }

  /** Equal signatures mean equal content. */
  predicate HonestSignatures(recs: Table, fs: FileSystem) {
    forall id | id in recs && recs[id].pathCurrent && recs[id].path in fs
          && recs[id].signature == Some(fs[recs[id].path].signature) ::
      recs[id].contentHash == Some(fs[recs[id].path].hash)
  }

  predicate Sole(r: Recording) {
    r.contentHash.Some? && r.duplicateOf.None? && r.status != Duplicate
  }

  /** The workspace has no duplicate rows, and no two of its rows have the same content. */
  predicate DistinctRows(recs: Table, workspace: Id) {
    && (forall id | id in recs && recs[id].workspace == workspace :: Sole(recs[id]))
    && (forall a, b | a in recs && b in recs && recs[a].workspace == workspace && recs[b].workspace == workspace
                      && recs[a].contentHash == recs[b].contentHash :: a == b)
  }

  predicate Catalogued(recs: Table, fs: FileSystem, workspace: Id) {
    DistinctRows(recs, workspace) && HonestSignatures(recs, fs)
  }

  /** A content that no row has lost is a content that no row has. */
  lemma NotMovedMeansUnknown(db: Db, fs: FileSystem, path: Path, workspace: Id)
    requires RowsOk(db) && Catalogued(db.recordings, fs, workspace) && DistinctFiles(fs) && path in fs
    requires forall id | id in db.recordings :: !SitsAt(db.recordings[id], path)
    requires FindMoved(db, fs, fs[path].hash, workspace).None?
    ensures forall id | id in db.recordings && db.recordings[id].workspace == workspace ::
          db.recordings[id].contentHash != Some(fs[path].hash)
  {
    forall id | id in db.recordings && db.recordings[id].workspace == workspace
      ensures db.recordings[id].contentHash != Some(fs[path].hash)
    {
      var r := db.recordings[id];
      assert Sole(r) && id < db.nextId;
    }
  }

  lemma PlaceKeepsCatalogue(db: Db, fs: FileSystem, path: Path, workspace: Id)
    requires RowsOk(db) && Catalogued(db.recordings, fs, workspace) && DistinctFiles(fs) && path in fs
    requires forall id | id in db.recordings :: !SitsAt(db.recordings[id], path)
    ensures Catalogued(Place(db, fs, path, workspace, Scanned).db.recordings, fs, workspace)
  {
    var moved := FindMoved(db, fs, fs[path].hash, workspace);
    if moved.Some? {
      assert Sole(MovedTo(db.recordings[moved.value], path, fs[path]));
    } else {
      NotMovedMeansUnknown(db, fs, path, workspace);
      assert forall id | id in db.recordings && db.recordings[id].workspace == workspace :: Sole(db.recordings[id]);
      var original := FindOriginal(db, fs, fs[path], workspace);
      assert original.None?;
    }
  }

  lemma RefreshKeepsCatalogue(recs: Table, fs: FileSystem, id: Id, workspace: Id)
    requires Catalogued(recs, fs, workspace) && id in recs && recs[id].pathCurrent && recs[id].path in fs
    requires recs[id].workspace == workspace && SameContent(recs[id], fs[recs[id].path])
    ensures Catalogued(recs[id := Refreshed(recs[id], fs[recs[id].path])], fs, workspace)
  {
    assert Sole(recs[id]);
    assert Sole(Refreshed(recs[id], fs[recs[id].path]));
  }

  lemma VisitKeepsCatalogue(db: Db, fs: FileSystem, path: Path, workspace: Id)
    requires RowsOk(db) && OnePerPath(db.recordings) && Catalogued(db.recordings, fs, workspace) && DistinctFiles(fs)
    ensures var result := Visit(db, fs, path, workspace);
            result.Ingested? ==> Catalogued(result.db.recordings, fs, workspace)
  {
    if path in fs {
      var existing := CurrentAt(db, path);
      if existing.None? {
        assert forall id | id in db.recordings :: id < db.nextId;
        PlaceKeepsCatalogue(db, fs, path, workspace);
      } else {
        RevisitKeepsCatalogue(db, existing.value, fs, path, workspace);
      }
    }
  }

  lemma RevisitKeepsCatalogue(db: Db, id: Id, fs: FileSystem, path: Path, workspace: Id)
    requires RowsOk(db) && OnePerPath(db.recordings) && Catalogued(db.recordings, fs, workspace) && DistinctFiles(fs)
    requires path in fs && id in db.recordings && SitsAt(db.recordings[id], path)
    ensures var result := Revisit(db, id, fs, path, workspace, Scanned, true);
            result.Ingested? ==> Catalogued(result.db.recordings, fs, workspace)
  {
    var r := db.recordings[id];
    if r.workspace == workspace && r.source == Scanned {
      if SameContent(r, fs[path]) {
        RefreshKeepsCatalogue(db.recordings, fs, id, workspace);
      } else {
        assert RowOk(r, db.issued) && RowOk(LetGo(r), db.issued) && Sole(LetGo(r));
        PlaceKeepsCatalogue(WithRow(db, id, LetGo(r)), fs, path, workspace);
      }
    }
  }

  /* ---------- the theorem ---------- */

  /** Some row of the workspace holds the file at the path. */
  predicate Found(recs: Table, fs: FileSystem, path: Path, workspace: Id) {
    exists id | id in recs :: HoldsFile(recs[id], fs, path, workspace)
  }

  /** Every path is free to be registered in this workspace. */
  predicate NoneForeign(recs: Table, path: Path, workspace: Id) {
    forall id | id in recs :: !Foreign(recs, path, workspace, id)
  }

  predicate ArtifactsKept(recs: Table, recs': Table) {
    forall id | id in recs :: id in recs' && SameArtifacts(recs[id], recs'[id])
  }

  lemma ArtifactsKeptTransitively(a: Table, b: Table, c: Table)
    requires ArtifactsKept(a, b) && ArtifactsKept(b, c)
    ensures ArtifactsKept(a, c)
  {
  }

  lemma {:induction false} VisitsKeepCatalogue(db: Db, fs: FileSystem, paths: seq<Path>, workspace: Id, path: Path)
    requires DbInv(db) && Catalogued(db.recordings, fs, workspace) && DistinctFiles(fs)
    ensures var after := VisitAll(db, fs, paths, workspace).0;
            && DbInv(after)
            && Continues(db, after)
            && Catalogued(after.recordings, fs, workspace)
            && (NoneForeign(db.recordings, path, workspace) ==> NoneForeign(after.recordings, path, workspace))
            && ArtifactsKept(db.recordings, after.recordings)
  {
    if paths != [] {
      var n := |paths| - 1;
      VisitsKeepCatalogue(db, fs, paths[..n], workspace, path);
      var before := VisitAll(db, fs, paths[..n], workspace).0;
      OneMoreVisit(before, fs, paths[n], workspace, path);
      VisitAllUnfolds(db, fs, paths, workspace);
      var after := AfterVisit(before, fs, paths[n], workspace);
      ContinuesTransitively(db, before, after);
      ArtifactsKeptTransitively(db.recordings, before.recordings, after.recordings);
    }
  }

  lemma OneMoreVisit(db: Db, fs: FileSystem, visited: Path, workspace: Id, path: Path)
    requires DbInv(db) && Catalogued(db.recordings, fs, workspace) && DistinctFiles(fs)
    ensures var after := AfterVisit(db, fs, visited, workspace);
            && DbInv(after)
            && Continues(db, after)
            && Catalogued(after.recordings, fs, workspace)
            && (NoneForeign(db.recordings, path, workspace) ==> NoneForeign(after.recordings, path, workspace))
            && ArtifactsKept(db.recordings, after.recordings)
  {
    if Visit(db, fs, visited, workspace).Ingested? {
      RegisterKeeps(db, fs, visited, workspace, Scanned, true);
      VisitKeepsCatalogue(db, fs, visited, workspace);
      VisitTouches(db, fs, visited, workspace);
      NoneForeignAfter(db, fs, visited, workspace, path);
    }
  }

  lemma NoneForeignAfter(db: Db, fs: FileSystem, visited: Path, workspace: Id, path: Path)
    requires RowsOk(db) && Visit(db, fs, visited, workspace).Ingested?
    ensures NoneForeign(db.recordings, path, workspace) ==>
              NoneForeign(AfterVisit(db, fs, visited, workspace).recordings, path, workspace)
  {
    VisitTouches(db, fs, visited, workspace);
    var recs := AfterVisit(db, fs, visited, workspace).recordings;
    if NoneForeign(db.recordings, path, workspace) {
      forall id | id in recs
        ensures !Foreign(recs, path, workspace, id)
      {
        assert Touched(db.recordings, id, recs[id], visited, workspace);
        assert id in db.recordings ==> !Foreign(db.recordings, path, workspace, id);
      }
    }
  }

  lemma {:induction false} VisitingKeepsIdentity(db: Db, fs: FileSystem, paths: seq<Path>, workspace: Id, k: nat,
        id: Id)
    requires DbInv(db) && Catalogued(db.recordings, fs, workspace) && DistinctFiles(fs)
    requires Visitable(db.recordings, fs, paths, workspace) && k < |paths|
          && NoneForeign(db.recordings, paths[k], workspace)
    ensures var recs := VisitAll(db, fs, paths, workspace).0.recordings;
            && Found(recs, fs, paths[k], workspace)
            && DistinctRows(recs, workspace)
            && ((id in db.recordings && db.recordings[id].workspace == workspace
                 && db.recordings[id].contentHash == Some(fs[paths[k]].hash)) ==>
                  && id in recs
                  && HoldsFile(recs[id], fs, paths[k], workspace)
                  && SameArtifacts(db.recordings[id], recs[id]))
  {
    VisitsSettle(db, fs, paths, workspace, []);
    VisitsKeepCatalogue(db, fs, paths, workspace, paths[k]);
    var after := VisitAll(db, fs, paths, workspace).0;
    assert Settled(after.recordings, fs, paths[k], workspace);
    var holder :| holder in after.recordings
                  && (SettledBy(after.recordings, fs, paths[k], workspace, holder)
                        || Foreign(after.recordings, paths[k], workspace, holder));
    assert HoldsFile(after.recordings[holder], fs, paths[k], workspace);
    if id in db.recordings && db.recordings[id].workspace == workspace
          && db.recordings[id].contentHash == Some(fs[paths[k]].hash) {
      assert id < db.nextId && Follows(db.recordings[id], after.recordings[id], |db.issued|);
      assert holder == id;
    }
  }

  /** From rows and files whose contents are pairwise different, and whatever order the paths come in: after
      a scan each path has a current row with its file's content; a content that had a row before keeps that
      row, with its transcript, summary and title; and contents stay pairwise different. */
  lemma {:induction false} RenamingKeepsIdentity(db: Db, fs: FileSystem, walks: seq<Walk>, stat: Path -> DirStat,
        workspace: Id, k: nat, id: Id)
    requires DbInv(db) && Catalogued(db.recordings, fs, workspace) && DistinctFiles(fs) && k < |ToVisit(walks)|
    requires Visitable(db.recordings, fs, ToVisit(walks), workspace)
          && NoneForeign(db.recordings, ToVisit(walks)[k], workspace)
    ensures var recs := ScanFolders(db, fs, walks, stat, workspace).0.recordings;
            var path := ToVisit(walks)[k];
            && Found(recs, fs, path, workspace)
            && DistinctRows(recs, workspace)
            && ((id in db.recordings && db.recordings[id].workspace == workspace
                 && db.recordings[id].contentHash == Some(fs[path].hash)) ==>
                  id in recs && HoldsFile(recs[id], fs, path, workspace) && SameArtifacts(db.recordings[id], recs[id]))
  {
    var paths := ToVisit(walks);
    VisitingKeepsIdentity(db, fs, paths, workspace, k, id);
    var visited := VisitAll(db, fs, paths, workspace).0;
    var gone := ToSweep(visited.recordings, walks, stat, PathSet(paths), workspace);
    assert paths[k] in PathSet(paths);
    SweepKeepsIdentity(visited, gone, fs, paths[k], workspace, id);
  }

  lemma SweepKeepsIdentity(db: Db, gone: set<Id>, fs: FileSystem, path: Path, workspace: Id, id: Id)
    requires forall i | i in gone && i in db.recordings :: db.recordings[i].path != path
    requires Found(db.recordings, fs, path, workspace) && DistinctRows(db.recordings, workspace)
    ensures var recs := Swept(db, gone).recordings;
            && Found(recs, fs, path, workspace)
            && DistinctRows(recs, workspace)
            && (id in db.recordings && HoldsFile(db.recordings[id], fs, path, workspace) ==>
                  id in recs && recs[id] == db.recordings[id])
  {
    var recs := Swept(db, gone).recordings;
    var holder :| holder in db.recordings && HoldsFile(db.recordings[holder], fs, path, workspace);
    assert recs[holder] == db.recordings[holder];
    assert forall i | i in recs :: recs[i] == db.recordings[i].(status := recs[i].status);
  }
}
