/** Scanning the recording folders: visiting every file found, then marking what is gone. */
module Scan {
  import opened Records
  import opened Ingest
  import opened Protocol
  import opened Safety

  /** One root as `os.walk` reported it: `finished` when it was read to the end without an error and is
      still the same directory. */
  datatype Walk = Walk(base: Path, listing: seq<Path>, finished: bool)

  datatype Stats = Stats(created: nat, duplicate: nat, reappeared: nat, moved: nat, missing: nat)

  const NOTHING := Stats(0, 0, 0, 0, 0)

  function Counted(stats: Stats, outcome: Outcome): Stats {
    match outcome
    case New => stats.(created := stats.created + 1)
    case Duplicated => stats.(duplicate := stats.duplicate + 1)
    case Reappeared => stats.(reappeared := stats.reappeared + 1)
    case Moved => stats.(moved := stats.moved + 1)
    case Existing => stats
  }

  /* ---------- visiting ---------- */

  function Visit(db: Db, fs: FileSystem, path: Path, workspace: Id): Result {
    IngestFile(db, fs, path, workspace, Scanned, true)
  }

  /** A file that is refused leaves no trace: its transaction is rolled back. */
  function VisitAll(db: Db, fs: FileSystem, paths: seq<Path>, workspace: Id): (Db, Stats) {
    if paths == [] then (db, NOTHING)
    else
      var (before, stats) := VisitAll(db, fs, paths[..|paths| - 1], workspace);
      var result := Visit(before, fs, paths[|paths| - 1], workspace);
      if result.Ingested? then (result.db, Counted(stats, result.outcome)) else (before, stats)
  }

  function AfterVisit(db: Db, fs: FileSystem, path: Path, workspace: Id): Db {
    var result := Visit(db, fs, path, workspace);
    if result.Ingested? then result.db else db
  }

  lemma VisitAllUnfolds(db: Db, fs: FileSystem, paths: seq<Path>, workspace: Id)
    requires paths != []
    ensures var before := VisitAll(db, fs, paths[..|paths| - 1], workspace).0;
            VisitAll(db, fs, paths, workspace).0 == AfterVisit(before, fs, paths[|paths| - 1], workspace)
  {
  }

  /** How many of the visits ended so. */
  function HowMany(db: Db, fs: FileSystem, paths: seq<Path>, workspace: Id, outcome: Outcome): nat {
    if paths == [] then 0
    else
      var rest := paths[..|paths| - 1];
      var result := Visit(VisitAll(db, fs, rest, workspace).0, fs, paths[|paths| - 1], workspace);
      HowMany(db, fs, rest, workspace, outcome) + if result.Ingested? && result.outcome == outcome then 1 else 0
  }

  /** A scan reports how many files were new, duplicates, back again and moved. */
  lemma {:induction false} VisitsAreCounted(db: Db, fs: FileSystem, paths: seq<Path>, workspace: Id)
    ensures VisitAll(db, fs, paths, workspace).1
         == Stats(HowMany(db, fs, paths, workspace, New), HowMany(db, fs, paths, workspace, Duplicated),
                  HowMany(db, fs, paths, workspace, Reappeared), HowMany(db, fs, paths, workspace, Moved), 0)
  {
    if paths != [] {
      VisitsAreCounted(db, fs, paths[..|paths| - 1], workspace);
    }
  }

  /* ---------- what one visit touches ---------- */

  predicate SameArtifacts(a: Recording, b: Recording) {
    && a.title == b.title
    && a.summary == b.summary
    && a.sttMeta == b.sttMeta
    && a.segments == b.segments
  }

  /** A row after a visit to `path`: as it was, or now at the path, or no longer at any path. */
  predicate Touched(before: Table, id: Id, r: Recording, path: Path, workspace: Id) {
    && (id in before ==> SameArtifacts(before[id], r))
    && r.workspace == (if id in before then before[id].workspace else workspace)
    && ((id in before && r == before[id]) || SitsAt(r, path) || !r.pathCurrent)
  }

  predicate InPlaceElsewhere(r: Recording, fs: FileSystem, path: Path) {
    HasMatchingFile(fs, r) && r.path != path
  }

  /** A visit leaves alone the rows of other workspaces and every row whose own file, elsewhere, is in place. */
  predicate LeavesAlone(before: Table, after: Table, fs: FileSystem, path: Path, workspace: Id) {
    forall id | id in before && (before[id].workspace == workspace ==> InPlaceElsewhere(before[id], fs, path)) ::
      id in after && after[id] == before[id]
  }

  lemma PlaceTouches(db: Db, fs: FileSystem, path: Path, workspace: Id)
    requires RowsOk(db) && path in fs
    ensures var result := Place(db, fs, path, workspace, Scanned);
            && (forall id | id in result.db.recordings ::
                  Touched(db.recordings, id, result.db.recordings[id], path, workspace))
            && LeavesAlone(db.recordings, result.db.recordings, fs, path, workspace)
            && db.recordings.Keys <= result.db.recordings.Keys
  {
    assert db.nextId !in db.recordings;
  }

  /** Letting the row at the path go first is a touch like any other. */
  lemma TouchesAfterLettingGo(before: Table, id: Id, after: Table, fs: FileSystem, path: Path, workspace: Id)
    requires id in before && SitsAt(before[id], path) && before[id].workspace == workspace
    requires before[id := LetGo(before[id])].Keys <= after.Keys
    requires forall i | i in after :: Touched(before[id := LetGo(before[id])], i, after[i], path, workspace)
    requires LeavesAlone(before[id := LetGo(before[id])], after, fs, path, workspace)
    ensures forall i | i in after :: Touched(before, i, after[i], path, workspace)
    ensures LeavesAlone(before, after, fs, path, workspace)
  {
  }

  lemma RevisitTouches(db: Db, id: Id, fs: FileSystem, path: Path, workspace: Id)
    requires RowsOk(db) && path in fs && id in db.recordings && SitsAt(db.recordings[id], path)
    ensures var result := Revisit(db, id, fs, path, workspace, Scanned, true);
            result.Ingested? ==>
              && db.recordings[id].workspace == workspace
              && (forall i | i in result.db.recordings ::
                    Touched(db.recordings, i, result.db.recordings[i], path, workspace))
              && LeavesAlone(db.recordings, result.db.recordings, fs, path, workspace)
              && db.recordings.Keys <= result.db.recordings.Keys
  {
    var r := db.recordings[id];
    if r.workspace == workspace && r.source == Scanned && !SameContent(r, fs[path]) {
      assert RowOk(r, db.issued) && RowOk(LetGo(r), db.issued);
      PlaceTouches(WithRow(db, id, LetGo(r)), fs, path, workspace);
      var after := Place(WithRow(db, id, LetGo(r)), fs, path, workspace, Scanned).db.recordings;
      TouchesAfterLettingGo(db.recordings, id, after, fs, path, workspace);
    }
  }

  lemma VisitTouches(db: Db, fs: FileSystem, path: Path, workspace: Id)
    requires RowsOk(db)
    ensures var result := Visit(db, fs, path, workspace);
            result.Ingested? ==>
              && (forall id | id in result.db.recordings ::
                    Touched(db.recordings, id, result.db.recordings[id], path, workspace))
              && LeavesAlone(db.recordings, result.db.recordings, fs, path, workspace)
              && db.recordings.Keys <= result.db.recordings.Keys
  {
    if path in fs {
      if CurrentAt(db, path).None? {
        PlaceTouches(db, fs, path, workspace);
      } else {
        RevisitTouches(db, CurrentAt(db, path).value, fs, path, workspace);
      }
    }
  }

  /* ---------- settled paths ---------- */

  /** This row is at this path, in this workspace, and the file there has the row's content. */
  predicate HoldsFile(r: Recording, fs: FileSystem, path: Path, workspace: Id) {
    && path in fs
    && SitsAt(r, path)
    && r.workspace == workspace
    && r.contentHash == Some(fs[path].hash)
  }

  /** Visiting the path again would change nothing in the row but an old "source changed" note, which a
      moved row carries along until the next visit. */
  predicate UpToDate(r: Recording, file: File) {
    r.source == Scanned ==>
      && r.signature == Some(file.signature)
      && r.duration == file.duration
      && r.status != Missing
      && (r.error == SourceChanged ==> r.status == ResumeStatus(r))
  }

  predicate SettledBy(recs: Table, fs: FileSystem, path: Path, workspace: Id, id: Id) {
    id in recs && HoldsFile(recs[id], fs, path, workspace) && UpToDate(recs[id], fs[path])
  }

  predicate Foreign(recs: Table, path: Path, workspace: Id, id: Id) {
    id in recs && SitsAt(recs[id], path) && recs[id].workspace != workspace
  }

  predicate Settled(recs: Table, fs: FileSystem, path: Path, workspace: Id) {
    exists id | id in recs :: SettledBy(recs, fs, path, workspace, id) || Foreign(recs, path, workspace, id)
  }

  /** No upload of this workspace sits at the path with other content than the file there has. How an upload comes to
      a scanned path at all is the subject of `Folders`. */
  predicate FreeOfUploads(recs: Table, fs: FileSystem, path: Path, workspace: Id) {
    forall id | id in recs && SitsAt(recs[id], path) && recs[id].workspace == workspace ::
      recs[id].source == Scanned || HoldsFile(recs[id], fs, path, workspace)
  }

  lemma CurrentIs(db: Db, path: Path, id: Id)
    requires RowsOk(db) && OnePerPath(db.recordings) && id in db.recordings && SitsAt(db.recordings[id], path)
    ensures CurrentAt(db, path) == Some(id)
  {
    assert id < db.nextId;
  }

  lemma PlaceSettles(db: Db, fs: FileSystem, path: Path, workspace: Id)
    requires RowsOk(db) && path in fs
    ensures Settled(Place(db, fs, path, workspace, Scanned).db.recordings, fs, path, workspace)
  {
    var result := Place(db, fs, path, workspace, Scanned);
    var moved := FindMoved(db, fs, fs[path].hash, workspace);
    if moved.Some? {
      assert MovedTo(db.recordings[moved.value], path, fs[path]).status != Missing;
    }
    assert SettledBy(result.db.recordings, fs, path, workspace, result.id);
  }

  lemma VisitSettles(db: Db, fs: FileSystem, path: Path, workspace: Id)
    requires RowsOk(db) && path in fs && FreeOfUploads(db.recordings, fs, path, workspace)
    ensures var result := Visit(db, fs, path, workspace);
            Settled(if result.Ingested? then result.db.recordings else db.recordings, fs, path, workspace)
  {
    var result := Visit(db, fs, path, workspace);
    var existing := CurrentAt(db, path);
    if existing.None? {
      PlaceSettles(db, fs, path, workspace);
    } else {
      var r := db.recordings[existing.value];
      assert RowOk(r, db.issued);
      if r.workspace != workspace {
        assert Foreign(db.recordings, path, workspace, existing.value);
      } else if r.source != Scanned {
        assert SettledBy(db.recordings, fs, path, workspace, existing.value);
      } else if SameContent(r, fs[path]) {
        assert SettledBy(result.db.recordings, fs, path, workspace, existing.value);
      } else {
        PlaceSettles(WithRow(db, existing.value, LetGo(r)), fs, path, workspace);
      }
    }
  }

  lemma VisitKeepsSettled(db: Db, fs: FileSystem, path: Path, workspace: Id, other: Path)
    requires RowsOk(db) && other != path && Settled(db.recordings, fs, other, workspace)
    ensures var result := Visit(db, fs, path, workspace);
            result.Ingested? ==> Settled(result.db.recordings, fs, other, workspace)
  {
    VisitTouches(db, fs, path, workspace);
    var result := Visit(db, fs, path, workspace);
    if id :| id in db.recordings && SettledBy(db.recordings, fs, other, workspace, id) {
      assert HasMatchingFile(fs, db.recordings[id]);
      assert result.Ingested? ==> SettledBy(result.db.recordings, fs, other, workspace, id);
    } else {
      var id :| id in db.recordings && Foreign(db.recordings, other, workspace, id);
      assert result.Ingested? ==> Foreign(result.db.recordings, other, workspace, id);
    }
  }

  lemma VisitKeepsFree(db: Db, fs: FileSystem, path: Path, workspace: Id, other: Path)
    requires RowsOk(db) && other != path && FreeOfUploads(db.recordings, fs, other, workspace)
    ensures var result := Visit(db, fs, path, workspace);
            result.Ingested? ==> FreeOfUploads(result.db.recordings, fs, other, workspace)
  {
    VisitTouches(db, fs, path, workspace);
    var result := Visit(db, fs, path, workspace);
    if result.Ingested? {
      forall id | id in result.db.recordings && SitsAt(result.db.recordings[id], other)
        ensures id in db.recordings && db.recordings[id] == result.db.recordings[id]
      {
        assert Touched(db.recordings, id, result.db.recordings[id], path, workspace);
      }
    }
  }

  predicate Distinct(paths: seq<Path>) {
    forall i, j | 0 <= i < j < |paths| :: paths[i] != paths[j]
  }

  /** Paths to visit: distinct files that exist, none held by an upload with other content. */
  predicate Visitable(recs: Table, fs: FileSystem, paths: seq<Path>, workspace: Id) {
    && Distinct(paths)
    && (forall k | 0 <= k < |paths| :: paths[k] in fs && FreeOfUploads(recs, fs, paths[k], workspace))
  }

  predicate AllSettled(recs: Table, fs: FileSystem, paths: seq<Path>, workspace: Id) {
    forall k | 0 <= k < |paths| :: Settled(recs, fs, paths[k], workspace)
  }

  /** One more visit settles its path, keeps the settled ones settled and another one free of uploads. */
  lemma OneMoreSettles(db: Db, fs: FileSystem, paths: seq<Path>, workspace: Id, path: Path, unvisited: Path)
    requires DbInv(db) && path in fs && path !in paths && FreeOfUploads(db.recordings, fs, path, workspace)
    requires AllSettled(db.recordings, fs, paths, workspace)
    ensures var result := Visit(db, fs, path, workspace);
            var after := if result.Ingested? then result.db else db;
            && DbInv(after)
            && AllSettled(after.recordings, fs, paths + [path], workspace)
            && (unvisited != path && FreeOfUploads(db.recordings, fs, unvisited, workspace) ==>
                  FreeOfUploads(after.recordings, fs, unvisited, workspace))
  {
    VisitSettles(db, fs, path, workspace);
    RegisterKeeps(db, fs, path, workspace, Scanned, true);
    forall k | 0 <= k < |paths|
      ensures var result := Visit(db, fs, path, workspace);
              result.Ingested? ==> Settled(result.db.recordings, fs, paths[k], workspace)
    {
      VisitKeepsSettled(db, fs, path, workspace, paths[k]);
    }
    if unvisited != path && FreeOfUploads(db.recordings, fs, unvisited, workspace) {
      VisitKeepsFree(db, fs, path, workspace, unvisited);
    }
  }

  /** After the visits, in whatever order, every path is settled; paths not visited are as free of uploads as before. */
  lemma {:induction false} VisitsSettle(db: Db, fs: FileSystem, paths: seq<Path>, workspace: Id, unvisited: Path)
    requires DbInv(db) && Visitable(db.recordings, fs, paths, workspace)
    ensures var (after, stats) := VisitAll(db, fs, paths, workspace);
            && DbInv(after)
            && AllSettled(after.recordings, fs, paths, workspace)
            && (unvisited !in paths && FreeOfUploads(db.recordings, fs, unvisited, workspace) ==>
                  FreeOfUploads(after.recordings, fs, unvisited, workspace))
  {
    if paths != [] {
      var first, path := paths[..|paths| - 1], paths[|paths| - 1];
      VisitsSettle(db, fs, first, workspace, path);
      VisitsSettle(db, fs, first, workspace, unvisited);
      assert first + [path] == paths;
      OneMoreSettles(VisitAll(db, fs, first, workspace).0, fs, first, workspace, path, unvisited);
    }
  }

  /* ---------- the sweep ---------- */

  datatype DirStat = OnDevice(device: int) | Absent | Unreadable

  /** The folder of `k` components is on this device, and the ones further down the path are gone. */
  predicate NearestIs(stat: Path -> DirStat, folder: Path, k: nat, device: int)
    requires k <= |folder|
  {
    stat(folder[..k]) == OnDevice(device) && forall j | k < j <= |folder| :: stat(folder[..j]) == Absent
  }

  /** The device of the nearest folder above a lost file that still exists, looking no higher than the root. */
  function DeviceSeen(stat: Path -> DirStat, folder: Path, root: Path): Option<int>
    decreases |folder|
  {
    if !(root <= folder) then None
    else
      match stat(folder)
      case OnDevice(device) => Some(device)
      case Unreadable => None
      case Absent => if folder == root || folder == [] then None else DeviceSeen(stat, folder[..|folder| - 1], root)
  }

  /** A device is seen exactly when some folder from the root down is the nearest one that exists, and is on it. */
  lemma {:induction false} DeviceSeenIsNearest(stat: Path -> DirStat, folder: Path, root: Path, device: int)
    requires root <= folder
    ensures DeviceSeen(stat, folder, root) == Some(device) <==> exists k | |root| <= k <= |folder| ::
          NearestIs(stat, folder, k, device)
    decreases |folder|
  {
    var n := |folder|;
    assert folder[..n] == folder;
    if stat(folder).OnDevice? {
      assert NearestIs(stat, folder, n, stat(folder).device);
    } else if stat(folder).Absent? && folder != root {
      var above := folder[..n - 1];
      DeviceSeenIsNearest(stat, above, root, device);
      forall k | |root| <= k < n
        ensures NearestIs(stat, folder, k, device) == NearestIs(stat, above, k, device)
      {
        assert forall j | 0 <= j < n :: above[..j] == folder[..j];
      }
    }
  }

  /** The deepest scanned root above a path. */
  function Owner(walks: seq<Walk>, path: Path): (owner: Option<Walk>)
    ensures owner.Some? ==> owner.value in walks && owner.value.base <= path
    ensures forall w | w in walks && w.base <= path :: owner.Some? && |w.base| <= |owner.value.base|
  {
    if walks == [] then None
    else
      var last, best := walks[|walks| - 1], Owner(walks[..|walks| - 1], path);
      if last.base <= path && (best.None? || |last.base| > |best.value.base|) then Some(last) else best
  }

  /** Registered by scan, its file not seen, under a root read to the end, on a device that is there. */
  predicate Gone(r: Recording, walks: seq<Walk>, stat: Path -> DirStat, seen: set<Path>, workspace: Id) {
    && r.pathCurrent && r.status != Missing && r.workspace == workspace && r.source == Scanned
    && r.path !in seen
    && var owner := Owner(walks, r.path);
    && owner.Some?
    && owner.value.finished
    && (r.signature.Some? ==>
          r.path != [] && DeviceSeen(stat, r.path[..|r.path| - 1], owner.value.base) == Some(r.signature.value.device))
  }

  function GoneUnder(recs: Table, walks: seq<Walk>, stat: Path -> DirStat, seen: set<Path>, workspace: Id,
        root: Walk): set<Id> {
    set id | id in recs && Gone(recs[id], walks, stat, seen, workspace) && Owner(walks, recs[id].path) == Some(root)
  }

  const BLACKOUT: nat := 20

  /** A root under which no audio was seen while many recordings vanished is taken for an unplugged disk. */
  predicate HeldBack(recs: Table, walks: seq<Walk>, stat: Path -> DirStat, seen: set<Path>, workspace: Id, root: Walk) {
    && (forall p | p in seen :: Owner(walks, p) != Some(root))
    && |GoneUnder(recs, walks, stat, seen, workspace, root)| > BLACKOUT
  }

  function ToSweep(recs: Table, walks: seq<Walk>, stat: Path -> DirStat, seen: set<Path>, workspace: Id): set<Id> {
    set id | id in recs && Gone(recs[id], walks, stat, seen, workspace)
             && !HeldBack(recs, walks, stat, seen, workspace, Owner(walks, recs[id].path).value)
  }

  function PathSet(paths: seq<Path>): set<Path> {
    set p | p in paths
  }

  function ScanPaths(db: Db, fs: FileSystem, paths: seq<Path>, walks: seq<Walk>, stat: Path -> DirStat,
        workspace: Id): (Db, Stats) {
    var (visited, stats) := VisitAll(db, fs, paths, workspace);
    var gone := ToSweep(visited.recordings, walks, stat, PathSet(paths), workspace);
    (Swept(visited, gone), stats.(missing := |gone|))
  }

  /** What one walk adds to the paths to visit: inside its root and not seen under an earlier one. */
  function Fresh(base: Path, listing: seq<Path>, seen: seq<Path>): seq<Path> {
    if listing == [] then seen
    else
      var rest := Fresh(base, listing[..|listing| - 1], seen);
      var p := listing[|listing| - 1];
      if base <= p && p !in rest then rest + [p] else rest
  }

  function ToVisit(walks: seq<Walk>): seq<Path> {
    if walks == [] then []
    else Fresh(walks[|walks| - 1].base, walks[|walks| - 1].listing, ToVisit(walks[..|walks| - 1]))
  }

  function ScanFolders(db: Db, fs: FileSystem, walks: seq<Walk>, stat: Path -> DirStat, workspace: Id): (Db, Stats) {
    ScanPaths(db, fs, ToVisit(walks), walks, stat, workspace)
  }

  lemma {:induction false} FreshDistinct(base: Path, listing: seq<Path>, seen: seq<Path>)
    requires Distinct(seen)
    ensures Distinct(Fresh(base, listing, seen))
  {
    if listing != [] {
      FreshDistinct(base, listing[..|listing| - 1], seen);
      var rest := Fresh(base, listing[..|listing| - 1], seen);
      assert forall i | 0 <= i < |rest| :: rest[i] in rest;
    }
  }

  lemma {:induction false} FreshHolds(base: Path, listing: seq<Path>, seen: seq<Path>, path: Path)
    ensures path in Fresh(base, listing, seen) <==> path in seen || (base <= path && path in listing)
  {
    if listing != [] {
      FreshHolds(base, listing[..|listing| - 1], seen, path);
      assert listing == listing[..|listing| - 1] + [listing[|listing| - 1]];
    }
  }

  /** The paths visited are the files some walk reports inside its own root; a link out of every root is not
      among them. */
  lemma {:induction false} ToVisitHolds(walks: seq<Walk>, path: Path)
    ensures path in ToVisit(walks) <==> exists w | w in walks :: w.base <= path && path in w.listing
  {
    if walks != [] {
      var first, last := walks[..|walks| - 1], walks[|walks| - 1];
      ToVisitHolds(first, path);
      FreshHolds(last.base, last.listing, ToVisit(first), path);
      assert walks == first + [last];
    }
  }

  lemma {:induction false} ToVisitDistinct(walks: seq<Walk>)
    ensures Distinct(ToVisit(walks))
  {
    if walks != [] {
      ToVisitDistinct(walks[..|walks| - 1]);
      FreshDistinct(walks[|walks| - 1].base, walks[|walks| - 1].listing, ToVisit(walks[..|walks| - 1]));
    }
  }

  /* ---------- one scan ---------- */

  /** The sweep takes nothing from a settled path. */
  lemma SweepKeepsSettled(db: Db, fs: FileSystem, gone: set<Id>, path: Path, workspace: Id)
    requires Settled(db.recordings, fs, path, workspace)
    requires forall id | id in gone && id in db.recordings :: db.recordings[id].path != path
    ensures Settled(Swept(db, gone).recordings, fs, path, workspace)
  {
    var id :| id in db.recordings && (SettledBy(db.recordings, fs, path, workspace, id)
          || Foreign(db.recordings, path, workspace, id));
    assert SettledBy(Swept(db, gone).recordings, fs, path, workspace, id)
          || Foreign(Swept(db, gone).recordings, path, workspace, id);
  }

  /** After one scan every visited path is settled. */
  lemma ScanSettles(db: Db, fs: FileSystem, paths: seq<Path>, walks: seq<Walk>, stat: Path -> DirStat, workspace: Id)
    requires DbInv(db) && Visitable(db.recordings, fs, paths, workspace)
    ensures var once := ScanPaths(db, fs, paths, walks, stat, workspace).0;
            DbInv(once) && AllSettled(once.recordings, fs, paths, workspace)
  {
    VisitsSettle(db, fs, paths, workspace, []);
    var visited := VisitAll(db, fs, paths, workspace).0;
    var gone := ToSweep(visited.recordings, walks, stat, PathSet(paths), workspace);
    SweepFrames(visited, gone);
    FramedKeeps(visited, Swept(visited, gone));
    forall k | 0 <= k < |paths|
      ensures Settled(Swept(visited, gone).recordings, fs, paths[k], workspace)
    {
      assert paths[k] in PathSet(paths);
      SweepKeepsSettled(visited, fs, gone, paths[k], workspace);
    }
  }
}
