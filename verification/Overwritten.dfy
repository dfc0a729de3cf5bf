/** Uploads at scanned paths whose files were overwritten: read off the database and the files before a scan, which
    paths the scan leaves vacant, and so when a second scan still finds something to do. */
module Overwritten {
  import opened Records
  import opened Ingest
  import opened Protocol
  import opened Safety
  import opened Scan
  import opened Renaming
  import opened Rescan

  /* ---------- the condition ---------- */

  /** An upload of this workspace at the path, where the file has other content by now. */
  predicate Stale(recs: Table, fs: FileSystem, path: Path, workspace: Id, id: Id) {
    path in fs && UploadAt(recs, path, workspace, id) && recs[id].contentHash != Some(fs[path].hash)
  }

  predicate AllIn(paths: seq<Path>, fs: FileSystem) {
    forall k | 0 <= k < |paths| :: paths[k] in fs
  }

  /** The visit to the `j`-th path is refused: another workspace's row is there, or a stale upload that has not left
      by then. */
  predicate Refuses(recs: Table, fs: FileSystem, paths: seq<Path>, workspace: Id, j: nat)
    requires j < |paths| && AllIn(paths, fs)
    decreases j, 1
  {
    exists id | id in recs ::
      || Foreign(recs, paths[j], workspace, id)
      || (Stale(recs, fs, paths[j], workspace, id) && !Leaves(recs, fs, paths, workspace, id, j))
  }

  /** The content of the row turns up at one of the first `n` paths, and that visit is not refused. */
  predicate Leaves(recs: Table, fs: FileSystem, paths: seq<Path>, workspace: Id, id: Id, n: nat)
    requires n <= |paths| && AllIn(paths, fs) && id in recs
    decreases n, 0
  {
    exists i | 0 <= i < n :: recs[id].contentHash == Some(fs[paths[i]].hash) && !Refuses(recs, fs, paths, workspace, i)
  }

  /** A stale upload at the `k`-th path, and its content at a path visited later whose visit is not refused. */
  predicate LeftLater(recs: Table, fs: FileSystem, paths: seq<Path>, workspace: Id, k: nat, id: Id, j: nat)
    requires k < |paths| && j < |paths| && AllIn(paths, fs)
  {
    && k < j
    && Stale(recs, fs, paths[k], workspace, id)
    && recs[id].contentHash == Some(fs[paths[j]].hash)
    && !Refuses(recs, fs, paths, workspace, j)
  }

  predicate Vacated(recs: Table, fs: FileSystem, paths: seq<Path>, workspace: Id, k: nat)
    requires k < |paths| && AllIn(paths, fs)
  {
    exists id, j | id in recs && 0 <= j < |paths| :: LeftLater(recs, fs, paths, workspace, k, id, j)
  }

  /* ---------- after the first visits ---------- */

  ghost predicate Given(db: Db, fs: FileSystem, paths: seq<Path>, workspace: Id) {
    && DbInv(db)
    && Catalogued(db.recordings, fs, workspace)
    && DistinctFiles(fs)
    && Distinct(paths)
    && AllIn(paths, fs)
  }

  function Visited(db: Db, fs: FileSystem, paths: seq<Path>, workspace: Id, n: nat): Db
    requires n <= |paths|
  {
    VisitAll(db, fs, paths[..n], workspace).0
  }

  lemma VisitedNext(db: Db, fs: FileSystem, paths: seq<Path>, workspace: Id, n: nat)
    requires n < |paths|
    ensures Visited(db, fs, paths, workspace, n + 1)
         == AfterVisit(Visited(db, fs, paths, workspace, n), fs, paths[n], workspace)
  {
    assert paths[..n + 1][..n] == paths[..n];
    VisitAllUnfolds(db, fs, paths[..n + 1], workspace);
  }

  lemma VisitedOk(db: Db, fs: FileSystem, paths: seq<Path>, workspace: Id, n: nat)
    requires Given(db, fs, paths, workspace) && n <= |paths|
    ensures var now := Visited(db, fs, paths, workspace, n);
            DbInv(now) && Catalogued(now.recordings, fs, workspace)
  {
    VisitsKeepCatalogue(db, fs, paths[..n], workspace, []);
  }

  /** A row at a path not visited in between has been there all along. */
  lemma {:induction false} ThereBefore(db: Db, fs: FileSystem, paths: seq<Path>, workspace: Id, m: nat, n: nat,
        path: Path, id: Id)
    requires Given(db, fs, paths, workspace) && m <= n <= |paths| && (forall i | m <= i < n :: paths[i] != path)
    requires id in Visited(db, fs, paths, workspace, n).recordings
    requires SitsAt(Visited(db, fs, paths, workspace, n).recordings[id], path)
    ensures id in Visited(db, fs, paths, workspace, m).recordings
    ensures Visited(db, fs, paths, workspace, m).recordings[id] == Visited(db, fs, paths, workspace, n).recordings[id]
    decreases n
  {
    if m < n {
      ThereJustBefore(db, fs, paths, workspace, n - 1, path, id);
      ThereBefore(db, fs, paths, workspace, m, n - 1, path, id);
    }
  }

  lemma ThereJustBefore(db: Db, fs: FileSystem, paths: seq<Path>, workspace: Id, n: nat, path: Path, id: Id)
    requires Given(db, fs, paths, workspace) && n < |paths| && path != paths[n]
    requires id in Visited(db, fs, paths, workspace, n + 1).recordings
    requires SitsAt(Visited(db, fs, paths, workspace, n + 1).recordings[id], path)
    ensures id in Visited(db, fs, paths, workspace, n).recordings
    ensures Visited(db, fs, paths, workspace, n).recordings[id]
         == Visited(db, fs, paths, workspace, n + 1).recordings[id]
  {
    VisitedOk(db, fs, paths, workspace, n);
    VisitedNext(db, fs, paths, workspace, n);
    NoArrivals(Visited(db, fs, paths, workspace, n), fs, paths[n], workspace, path);
  }

  /** A visit changes the rows at its path and the rows with the content of its file, and no others. */
  lemma VisitChangesOnly(db: Db, fs: FileSystem, path: Path, workspace: Id, id: Id)
    requires RowsOk(db) && path in fs && id in db.recordings
    requires !SitsAt(db.recordings[id], path) && db.recordings[id].contentHash != Some(fs[path].hash)
    ensures var recs := AfterVisit(db, fs, path, workspace).recordings;
            id in recs && recs[id] == db.recordings[id]
  {
    assert id < db.nextId;
  }

  /** A visit that is not refused takes a lost row of this content to its path. */
  lemma VisitTakes(db: Db, fs: FileSystem, path: Path, workspace: Id, id: Id)
    requires DbInv(db) && Catalogued(db.recordings, fs, workspace) && path in fs
    requires id in db.recordings && db.recordings[id].workspace == workspace
    requires db.recordings[id].contentHash == Some(fs[path].hash) && !HasMatchingFile(fs, db.recordings[id])
    requires forall i | i in db.recordings && SitsAt(db.recordings[i], path) ::
               db.recordings[i].workspace == workspace && db.recordings[i].source == Scanned
    ensures var recs := AfterVisit(db, fs, path, workspace).recordings;
            id in recs && HoldsFile(recs[id], fs, path, workspace)
  {
    assert Sole(db.recordings[id]) && id < db.nextId;
    assert !SitsAt(db.recordings[id], path);
    var existing := CurrentAt(db, path);
    if existing.None? {
      PlaceTakes(db, fs, path, workspace, id);
    } else {
      var r := db.recordings[existing.value];
      assert Sole(r);
      PlaceTakes(WithRow(db, existing.value, LetGo(r)), fs, path, workspace, id);
    }
  }

  lemma PlaceTakes(db: Db, fs: FileSystem, path: Path, workspace: Id, id: Id)
    requires path in fs && DistinctRows(db.recordings, workspace)
    requires id in db.recordings && id < db.nextId && ByContent(db.recordings[id], fs[path].hash, workspace)
    requires !HasMatchingFile(fs, db.recordings[id])
    ensures var recs := Place(db, fs, path, workspace, Scanned).db.recordings;
            id in recs && HoldsFile(recs[id], fs, path, workspace)
  {
    var moved := FindMoved(db, fs, fs[path].hash, workspace);
    assert moved.Some?;
    assert moved.value == id;
  }

  /* ---------- where a stale upload is after some visits ---------- */

  /** Once it leaves it holds a file at a path visited so far; until then it is as it was. */
  predicate Tracked(db: Db, fs: FileSystem, paths: seq<Path>, workspace: Id, n: nat, id: Id)
    requires n <= |paths| && AllIn(paths, fs) && id in db.recordings
  {
    var recs := Visited(db, fs, paths, workspace, n).recordings;
    id in recs &&
    if Leaves(db.recordings, fs, paths, workspace, id, n)
    then exists i | 0 <= i < n :: HoldsFile(recs[id], fs, paths[i], workspace)
    else recs[id] == db.recordings[id]
  }

  predicate AllTracked(db: Db, fs: FileSystem, paths: seq<Path>, workspace: Id, n: nat)
    requires n <= |paths| && AllIn(paths, fs)
  {
    forall id, k | id in db.recordings && 0 <= k < |paths| && Stale(db.recordings, fs, paths[k], workspace, id) ::
      Tracked(db, fs, paths, workspace, n, id)
  }

  lemma LeavesNext(recs: Table, fs: FileSystem, paths: seq<Path>, workspace: Id, id: Id, n: nat)
    requires n < |paths| && AllIn(paths, fs) && id in recs
    ensures Leaves(recs, fs, paths, workspace, id, n + 1)
       <==> || Leaves(recs, fs, paths, workspace, id, n)
            || (recs[id].contentHash == Some(fs[paths[n]].hash) && !Refuses(recs, fs, paths, workspace, n))
  {
  }

  lemma {:induction false} ForeignStays(db: Db, fs: FileSystem, paths: seq<Path>, workspace: Id, n: nat, id: Id)
    requires Given(db, fs, paths, workspace) && n <= |paths| && id in db.recordings
          && db.recordings[id].workspace != workspace
    ensures var recs := Visited(db, fs, paths, workspace, n).recordings; id in recs && recs[id] == db.recordings[id]
  {
    if n > 0 {
      ForeignStays(db, fs, paths, workspace, n - 1, id);
      VisitedOk(db, fs, paths, workspace, n - 1);
      VisitedNext(db, fs, paths, workspace, n - 1);
      VisitTouches(Visited(db, fs, paths, workspace, n - 1), fs, paths[n - 1], workspace);
    }
  }

  lemma RefusedVisit(db: Db, fs: FileSystem, paths: seq<Path>, workspace: Id, n: nat)
    requires Given(db, fs, paths, workspace) && n < |paths| && AllTracked(db, fs, paths, workspace, n)
    requires Refuses(db.recordings, fs, paths, workspace, n)
    ensures Visited(db, fs, paths, workspace, n + 1) == Visited(db, fs, paths, workspace, n)
  {
    var now := Visited(db, fs, paths, workspace, n);
    VisitedOk(db, fs, paths, workspace, n);
    VisitedNext(db, fs, paths, workspace, n);
    var id := Occupant(db, fs, paths, workspace, n);
    CurrentIs(now, paths[n], id);
  }

  /** The row that makes the visit be refused is still there. */
  lemma Occupant(db: Db, fs: FileSystem, paths: seq<Path>, workspace: Id, n: nat) returns (id: Id)
    requires Given(db, fs, paths, workspace) && n < |paths| && AllTracked(db, fs, paths, workspace, n)
    requires Refuses(db.recordings, fs, paths, workspace, n)
    ensures var recs := Visited(db, fs, paths, workspace, n).recordings;
            && id in recs
            && SitsAt(recs[id], paths[n])
            && (recs[id].workspace != workspace || recs[id].source != Scanned)
  {
    id :| id in db.recordings &&
              (|| Foreign(db.recordings, paths[n], workspace, id)
               || (&& Stale(db.recordings, fs, paths[n], workspace, id)
                   && !Leaves(db.recordings, fs, paths, workspace, id, n)));
    if Foreign(db.recordings, paths[n], workspace, id) {
      ForeignStays(db, fs, paths, workspace, n, id);
    } else {
      assert Tracked(db, fs, paths, workspace, n, id);
    }
  }

  /** Where the visit is not refused, the current row, if any, is a scanned one or has the file's content. */
  lemma AcceptedVisit(db: Db, fs: FileSystem, paths: seq<Path>, workspace: Id, n: nat, id: Id)
    requires Given(db, fs, paths, workspace) && n < |paths| && AllTracked(db, fs, paths, workspace, n)
    requires !Refuses(db.recordings, fs, paths, workspace, n)
    requires id in Visited(db, fs, paths, workspace, n).recordings
    requires SitsAt(Visited(db, fs, paths, workspace, n).recordings[id], paths[n])
    ensures var r := Visited(db, fs, paths, workspace, n).recordings[id];
            r.workspace == workspace && (r.source == Scanned || r.contentHash == Some(fs[paths[n]].hash))
  {
    var r := Visited(db, fs, paths, workspace, n).recordings[id];
    ThereBefore(db, fs, paths, workspace, 0, n, paths[n], id);
    assert paths[..0] == [];
    assert id in db.recordings && db.recordings[id] == r;
    assert !Foreign(db.recordings, paths[n], workspace, id);
  }

  lemma StaleIsLost(db: Db, fs: FileSystem, path: Path, workspace: Id, id: Id)
    requires Catalogued(db.recordings, fs, workspace) && Stale(db.recordings, fs, path, workspace, id)
    ensures !HasMatchingFile(fs, db.recordings[id])
  {
  }

  /** The visit that takes a stale upload to the file of its content. */
  lemma TakenAway(db: Db, fs: FileSystem, paths: seq<Path>, workspace: Id, n: nat, k: nat, id: Id)
    requires Given(db, fs, paths, workspace) && n < |paths| && k < |paths| && AllTracked(db, fs, paths, workspace, n)
    requires Stale(db.recordings, fs, paths[k], workspace, id) && !Refuses(db.recordings, fs, paths, workspace, n)
    requires db.recordings[id].contentHash == Some(fs[paths[n]].hash)
    ensures Tracked(db, fs, paths, workspace, n + 1, id)
  {
    var now := Visited(db, fs, paths, workspace, n);
    VisitedOk(db, fs, paths, workspace, n);
    VisitedNext(db, fs, paths, workspace, n);
    LeavesNext(db.recordings, fs, paths, workspace, id, n);
    assert Tracked(db, fs, paths, workspace, n, id);
    assert now.recordings[id] == db.recordings[id];
    StaleIsLost(now, fs, paths[k], workspace, id);
    forall i | i in now.recordings && SitsAt(now.recordings[i], paths[n])
      ensures now.recordings[i].workspace == workspace && now.recordings[i].source == Scanned
    {
      AcceptedVisit(db, fs, paths, workspace, n, i);
    }
    VisitTakes(now, fs, paths[n], workspace, id);
  }

  /** Any other stale upload is left alone by the visit. */
  lemma LeftAlone(db: Db, fs: FileSystem, paths: seq<Path>, workspace: Id, n: nat, k: nat, id: Id)
    requires Given(db, fs, paths, workspace) && n < |paths| && k < |paths| && AllTracked(db, fs, paths, workspace, n)
    requires Stale(db.recordings, fs, paths[k], workspace, id) && !Refuses(db.recordings, fs, paths, workspace, n)
    requires db.recordings[id].contentHash != Some(fs[paths[n]].hash)
    ensures Tracked(db, fs, paths, workspace, n + 1, id)
  {
    var now := Visited(db, fs, paths, workspace, n);
    VisitedOk(db, fs, paths, workspace, n);
    VisitedNext(db, fs, paths, workspace, n);
    LeavesNext(db.recordings, fs, paths, workspace, id, n);
    assert Tracked(db, fs, paths, workspace, n, id);
    VisitChangesOnly(now, fs, paths[n], workspace, id);
  }

  lemma {:induction false} StaleUploadsAreTracked(db: Db, fs: FileSystem, paths: seq<Path>, workspace: Id, n: nat)
    requires Given(db, fs, paths, workspace) && n <= |paths|
    ensures AllTracked(db, fs, paths, workspace, n)
  {
    if n == 0 {
      assert paths[..0] == [];
    } else {
      StaleUploadsAreTracked(db, fs, paths, workspace, n - 1);
      forall id, k | id in db.recordings && 0 <= k < |paths| && Stale(db.recordings, fs, paths[k], workspace, id)
        ensures Tracked(db, fs, paths, workspace, n, id)
      {
        TrackedOn(db, fs, paths, workspace, n - 1, k, id);
      }
    }
  }

  lemma TrackedOn(db: Db, fs: FileSystem, paths: seq<Path>, workspace: Id, n: nat, k: nat, id: Id)
    requires Given(db, fs, paths, workspace) && n < |paths| && k < |paths| && AllTracked(db, fs, paths, workspace, n)
    requires Stale(db.recordings, fs, paths[k], workspace, id)
    ensures Tracked(db, fs, paths, workspace, n + 1, id)
  {
    if Refuses(db.recordings, fs, paths, workspace, n) {
      RefusedVisit(db, fs, paths, workspace, n);
      LeavesNext(db.recordings, fs, paths, workspace, id, n);
      assert Tracked(db, fs, paths, workspace, n, id);
    } else if db.recordings[id].contentHash == Some(fs[paths[n]].hash) {
      TakenAway(db, fs, paths, workspace, n, k, id);
    } else {
      LeftAlone(db, fs, paths, workspace, n, k, id);
    }
  }

  /* ---------- which paths are left vacant ---------- */

  lemma {:induction false} StaysSettled(db: Db, fs: FileSystem, paths: seq<Path>, workspace: Id, m: nat, n: nat,
        path: Path)
    requires Given(db, fs, paths, workspace) && m <= n <= |paths| && (forall i | m <= i < n :: paths[i] != path)
    requires Settled(Visited(db, fs, paths, workspace, m).recordings, fs, path, workspace)
    ensures Settled(Visited(db, fs, paths, workspace, n).recordings, fs, path, workspace)
    decreases n
  {
    if m < n {
      StaysSettled(db, fs, paths, workspace, m, n - 1, path);
      VisitedOk(db, fs, paths, workspace, n - 1);
      VisitedNext(db, fs, paths, workspace, n - 1);
      VisitKeepsSettled(Visited(db, fs, paths, workspace, n - 1), fs, paths[n - 1], workspace, path);
    }
  }

  /** A row at the path just visited either has the file's content or was there before. */
  lemma VisitBringsHolders(db: Db, fs: FileSystem, path: Path, workspace: Id, id: Id)
    requires RowsOk(db) && OnePerPath(db.recordings) && path in fs
    requires id in AfterVisit(db, fs, path, workspace).recordings
    requires SitsAt(AfterVisit(db, fs, path, workspace).recordings[id], path)
    ensures var r := AfterVisit(db, fs, path, workspace).recordings[id];
            HoldsFile(r, fs, path, workspace) || (id in db.recordings && db.recordings[id] == r)
  {
    var existing := CurrentAt(db, path);
    if existing.None? {
      PlaceBringsHolders(db, fs, path, workspace, id);
    } else {
      var r := db.recordings[existing.value];
      if r.workspace == workspace && r.source == Scanned && !SameContent(r, fs[path]) {
        PlaceBringsHolders(WithRow(db, existing.value, LetGo(r)), fs, path, workspace, id);
      }
    }
  }

  lemma PlaceBringsHolders(db: Db, fs: FileSystem, path: Path, workspace: Id, id: Id)
    requires path in fs && id in Place(db, fs, path, workspace, Scanned).db.recordings
    requires SitsAt(Place(db, fs, path, workspace, Scanned).db.recordings[id], path)
    ensures var r := Place(db, fs, path, workspace, Scanned).db.recordings[id];
            HoldsFile(r, fs, path, workspace) || (id in db.recordings && db.recordings[id] == r)
  {
  }

  /** A path without a settled row after its visit has had a stale upload from the start, which has not left. */
  lemma UnsettledIsStale(db: Db, fs: FileSystem, paths: seq<Path>, workspace: Id, k: nat) returns (id: Id)
    requires Given(db, fs, paths, workspace) && k < |paths|
    requires !Settled(Visited(db, fs, paths, workspace, k + 1).recordings, fs, paths[k], workspace)
    ensures Stale(db.recordings, fs, paths[k], workspace, id) && !Leaves(db.recordings, fs, paths, workspace, id, k + 1)
  {
    var before, after := Visited(db, fs, paths, workspace, k), Visited(db, fs, paths, workspace, k + 1);
    VisitedOk(db, fs, paths, workspace, k);
    VisitedNext(db, fs, paths, workspace, k);
    VisitQuiets(before, fs, paths[k], workspace);
    id :| id in after.recordings && UploadAt(after.recordings, paths[k], workspace, id);
    assert !SettledBy(after.recordings, fs, paths[k], workspace, id);
    VisitBringsHolders(before, fs, paths[k], workspace, id);
    assert paths[..0] == [];
    ThereBefore(db, fs, paths, workspace, 0, k, paths[k], id);
    StaleUploadsAreTracked(db, fs, paths, workspace, k + 1);
    assert Tracked(db, fs, paths, workspace, k + 1, id);
  }

  lemma VacantThenLeftLater(db: Db, fs: FileSystem, paths: seq<Path>, workspace: Id, k: nat)
    requires Given(db, fs, paths, workspace) && k < |paths|
    requires Vacant(Visited(db, fs, paths, workspace, |paths|).recordings, paths[k])
    ensures Vacated(db.recordings, fs, paths, workspace, k)
  {
    var n := |paths|;
    if Settled(Visited(db, fs, paths, workspace, k + 1).recordings, fs, paths[k], workspace) {
      StaysSettled(db, fs, paths, workspace, k + 1, n, paths[k]);
    }
    var id := UnsettledIsStale(db, fs, paths, workspace, k);
    StaleUploadsAreTracked(db, fs, paths, workspace, n);
    assert Tracked(db, fs, paths, workspace, n, id);
    assert Leaves(db.recordings, fs, paths, workspace, id, n);
    var j :| 0 <= j < n && db.recordings[id].contentHash == Some(fs[paths[j]].hash)
          && !Refuses(db.recordings, fs, paths, workspace, j);
    assert LeftLater(db.recordings, fs, paths, workspace, k, id, j);
  }

  lemma LeftLaterThenVacant(db: Db, fs: FileSystem, paths: seq<Path>, workspace: Id, k: nat, id: Id, j: nat)
    requires Given(db, fs, paths, workspace) && k < |paths| && j < |paths|
    requires LeftLater(db.recordings, fs, paths, workspace, k, id, j)
    ensures Vacant(Visited(db, fs, paths, workspace, |paths|).recordings, paths[k])
  {
    var n := |paths|;
    var soon, late := Visited(db, fs, paths, workspace, k + 1), Visited(db, fs, paths, workspace, n);
    VisitedOk(db, fs, paths, workspace, k + 1);
    StaleUploadsAreTracked(db, fs, paths, workspace, k + 1);
    StaleUploadsAreTracked(db, fs, paths, workspace, n);
    assert Tracked(db, fs, paths, workspace, k + 1, id) && Tracked(db, fs, paths, workspace, n, id);
    assert soon.recordings[id] == db.recordings[id];
    forall i | i in late.recordings
      ensures !SitsAt(late.recordings[i], paths[k])
    {
      if SitsAt(late.recordings[i], paths[k]) {
        ThereBefore(db, fs, paths, workspace, k + 1, n, paths[k], i);
      }
    }
  }

  /** The scan leaves the `k`-th path vacant exactly when a stale upload is there whose content turns up at a path
      visited later, and that visit is not refused. */
  lemma {:induction false} VacantExactly(db: Db, fs: FileSystem, paths: seq<Path>, workspace: Id, k: nat)
    requires Given(db, fs, paths, workspace) && k < |paths|
    ensures Vacant(VisitAll(db, fs, paths, workspace).0.recordings, paths[k]) <==>
          Vacated(db.recordings, fs, paths, workspace, k)
  {
    assert paths[..|paths|] == paths;
    if Vacant(VisitAll(db, fs, paths, workspace).0.recordings, paths[k]) {
      VacantThenLeftLater(db, fs, paths, workspace, k);
    }
    if id, j :| id in db.recordings && 0 <= j < |paths| && LeftLater(db.recordings, fs, paths, workspace, k, id, j) {
      LeftLaterThenVacant(db, fs, paths, workspace, k, id, j);
    }
  }

  lemma SweepKeepsVacant(db: Db, gone: set<Id>, path: Path)
    ensures Vacant(Swept(db, gone).recordings, path) <==> Vacant(db.recordings, path)
  {
    if id :| id in db.recordings && SitsAt(db.recordings[id], path) {
      assert SitsAt(Swept(db, gone).recordings[id], path);
    }
  }

  /** Read off before the first scan, from rows and files whose contents are pairwise different: the second scan finds
      nothing to do exactly when no visited path has a stale upload that the first scan carries off to a later path. */
  lemma {:induction false} ScanIsIdempotentExactly(db: Db, fs: FileSystem, walks: seq<Walk>,
        stat: Path -> DirStat, workspace: Id)
    requires Given(db, fs, ToVisit(walks), workspace)
    ensures var (once, _) := ScanFolders(db, fs, walks, stat, workspace);
            ScanFolders(once, fs, walks, stat, workspace) == (Unnoted(once, ToVisit(walks), workspace), NOTHING)
            <==> forall k | 0 <= k < |ToVisit(walks)| :: !Vacated(db.recordings, fs, ToVisit(walks), workspace, k)
  {
    var paths := ToVisit(walks);
    ScanIsIdempotentIffNoneVacant(db, fs, walks, stat, workspace);
    var visited := VisitAll(db, fs, paths, workspace).0;
    var gone := ToSweep(visited.recordings, walks, stat, PathSet(paths), workspace);
    forall k | 0 <= k < |paths|
      ensures Vacant(Swept(visited, gone).recordings, paths[k]) <==> Vacated(db.recordings, fs, paths, workspace, k)
    {
      VacantExactly(db, fs, paths, workspace, k);
      SweepKeepsVacant(visited, gone, paths[k]);
    }
  }
}
