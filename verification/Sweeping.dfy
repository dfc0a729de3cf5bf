/** Which recordings a scan marks as missing, in terms of the files it saw and the devices that are there. */
module Sweeping {
  import opened Records
  import opened Ingest
  import opened Protocol
  import opened Safety
  import opened Scan

  /** Some walk was made of a root above the path, and this is one with the deepest. */
  predicate DeepestRoot(walks: seq<Walk>, path: Path, root: Walk) {
    root in walks && root.base <= path && forall w | w in walks && w.base <= path :: |w.base| <= |root.base|
  }

  /** Each root is walked once. */
  predicate RootsDiffer(walks: seq<Walk>) {
    forall i, j | 0 <= i < j < |walks| :: walks[i].base != walks[j].base
  }

  /** Looking up from the folder no higher than the root, the nearest one that is there is on this device. */
  predicate StillMounted(stat: Path -> DirStat, folder: Path, root: Path, device: int) {
    exists k | |root| <= k <= |folder| :: NearestIs(stat, folder, k, device)
  }

  /** A scanned row of the workspace that stands for a file the scan did not see, although it read the root to the end
      and, if the file's device is on record, that device is there. */
  predicate Vanished(r: Recording, stat: Path -> DirStat, seen: seq<Path>, workspace: Id, root: Walk) {
    && r.pathCurrent && r.status != Missing && r.source == Scanned && r.workspace == workspace
    && r.path !in seen
    && root.finished
    && (r.signature.Some? ==>
          && r.path != []
          && StillMounted(stat, r.path[..|r.path| - 1], root.base, r.signature.value.device))
  }

  function VanishedUnder(recs: Table, walks: seq<Walk>, stat: Path -> DirStat, seen: seq<Path>, workspace: Id,
        root: Walk): set<Id> {
    set id | id in recs && DeepestRoot(walks, recs[id].path, root) && Vanished(recs[id], stat, seen, workspace, root)
  }

  /** Not one file was seen under the root, and more than twenty recordings would go: the disk is taken to be
      unplugged. */
  predicate LooksUnplugged(recs: Table, walks: seq<Walk>, stat: Path -> DirStat, seen: seq<Path>, workspace: Id,
        root: Walk) {
    && (forall p | p in seen :: !DeepestRoot(walks, p, root))
    && |VanishedUnder(recs, walks, stat, seen, workspace, root)| > 20
  }

  /** The rows a scan marks. */
  predicate GoesMissing(recs: Table, walks: seq<Walk>, stat: Path -> DirStat, seen: seq<Path>, workspace: Id, id: Id) {
    && id in recs
    && exists root | root in walks ::
         && DeepestRoot(walks, recs[id].path, root)
         && Vanished(recs[id], stat, seen, workspace, root)
         && !LooksUnplugged(recs, walks, stat, seen, workspace, root)
  }

  /* ---------- the scan's own decision ---------- */

  lemma {:induction false} OneDeepest(walks: seq<Walk>, path: Path, root: Walk)
    requires RootsDiffer(walks)
    ensures DeepestRoot(walks, path, root) <==> Owner(walks, path) == Some(root)
  {
    var owner := Owner(walks, path);
    if DeepestRoot(walks, path, root) {
      var w := owner.value;
      assert w.base == root.base by {
        assert w.base == path[..|w.base|] && root.base == path[..|root.base|];
      }
      var i :| 0 <= i < |walks| && walks[i] == w;
      var j :| 0 <= j < |walks| && walks[j] == root;
      assert i == j;
    }
  }

  lemma MountedIsSeen(stat: Path -> DirStat, folder: Path, root: Path, device: int)
    ensures root <= folder ==>
              (StillMounted(stat, folder, root, device) <==> DeviceSeen(stat, folder, root) == Some(device))
    ensures !(root <= folder) ==> DeviceSeen(stat, folder, root).None?
  {
    if root <= folder {
      DeviceSeenIsNearest(stat, folder, root, device);
    }
  }

  /** A root above a file is above its folder, unless the root is the file's own path. */
  lemma AboveTheFolder(path: Path, root: Path)
    requires path != [] && root <= path
    ensures root <= path[..|path| - 1] || root == path
  {
  }

  lemma VanishedIsGone(r: Recording, walks: seq<Walk>, stat: Path -> DirStat, seen: seq<Path>, workspace: Id,
        root: Walk)
    requires RootsDiffer(walks) && DeepestRoot(walks, r.path, root)
    ensures Gone(r, walks, stat, PathSet(seen), workspace) <==> Vanished(r, stat, seen, workspace, root)
  {
    OneDeepest(walks, r.path, root);
    if r.signature.Some? && r.path != [] {
      MountedIsSeen(stat, r.path[..|r.path| - 1], root.base, r.signature.value.device);
      AboveTheFolder(r.path, root.base);
    }
  }

  lemma UnderTheSameRoot(recs: Table, walks: seq<Walk>, stat: Path -> DirStat, seen: seq<Path>, workspace: Id,
        root: Walk)
    requires RootsDiffer(walks)
    ensures VanishedUnder(recs, walks, stat, seen, workspace, root)
         == GoneUnder(recs, walks, stat, PathSet(seen), workspace, root)
    ensures LooksUnplugged(recs, walks, stat, seen, workspace, root)
       <==> HeldBack(recs, walks, stat, PathSet(seen), workspace, root)
  {
    forall id | id in recs
      ensures id in VanishedUnder(recs, walks, stat, seen, workspace, root)
         <==> id in GoneUnder(recs, walks, stat, PathSet(seen), workspace, root)
    {
      OneDeepest(walks, recs[id].path, root);
      if DeepestRoot(walks, recs[id].path, root) {
        VanishedIsGone(recs[id], walks, stat, seen, workspace, root);
      }
    }
    forall p | p in seen
      ensures DeepestRoot(walks, p, root) <==> Owner(walks, p) == Some(root)
    {
      OneDeepest(walks, p, root);
    }
  }

  lemma SweptExactly(recs: Table, walks: seq<Walk>, stat: Path -> DirStat, seen: seq<Path>, workspace: Id, id: Id)
    requires RootsDiffer(walks) && id in recs
    ensures id in ToSweep(recs, walks, stat, PathSet(seen), workspace)
       <==> GoesMissing(recs, walks, stat, seen, workspace, id)
  {
    var owner := Owner(walks, recs[id].path);
    if owner.Some? {
      OneDeepest(walks, recs[id].path, owner.value);
      VanishedIsGone(recs[id], walks, stat, seen, workspace, owner.value);
      UnderTheSameRoot(recs, walks, stat, seen, workspace, owner.value);
      forall root | DeepestRoot(walks, recs[id].path, root)
        ensures root == owner.value
      {
        OneDeepest(walks, recs[id].path, root);
      }
    }
  }

  /* ---------- the whole scan ---------- */

  /** After the visits a scan changes the status of just those rows to missing, nothing else of them and nothing of any
      other, and counts them. */
  lemma {:induction false} ScanMarksExactly(db: Db, fs: FileSystem, walks: seq<Walk>, stat: Path -> DirStat,
        workspace: Id, id: Id)
    requires RootsDiffer(walks)
    ensures var visited := VisitAll(db, fs, ToVisit(walks), workspace).0;
            var (after, stats) := ScanFolders(db, fs, walks, stat, workspace);
            && after == visited.(recordings := after.recordings)
            && after.recordings.Keys == visited.recordings.Keys
            && (id in visited.recordings ==>
                  after.recordings[id]
                  == if GoesMissing(visited.recordings, walks, stat, ToVisit(walks), workspace, id)
                     then visited.recordings[id].(status := Missing) else visited.recordings[id])
  {
    var visited := VisitAll(db, fs, ToVisit(walks), workspace).0;
    if id in visited.recordings {
      SweptExactly(visited.recordings, walks, stat, ToVisit(walks), workspace, id);
    }
  }

  /** Reasons to leave a row as the visits left it: another workspace's, an upload, a file that was seen, a root that
      was not read to the end or none at all, or a device that is not there. */
  predicate OutOfReach(r: Recording, walks: seq<Walk>, stat: Path -> DirStat, seen: seq<Path>, workspace: Id) {
    || r.workspace != workspace || r.source == Uploaded || r.path in seen
    || (forall root | root in walks && DeepestRoot(walks, r.path, root) ::
          || !root.finished
          || (r.signature.Some? && r.path != []
              && !StillMounted(stat, r.path[..|r.path| - 1], root.base, r.signature.value.device)))
  }

  lemma {:induction false} OutOfReachStays(db: Db, fs: FileSystem, walks: seq<Walk>, stat: Path -> DirStat,
        workspace: Id, id: Id)
    requires RootsDiffer(walks)
    ensures var visited := VisitAll(db, fs, ToVisit(walks), workspace).0.recordings;
            var after := ScanFolders(db, fs, walks, stat, workspace).0.recordings;
            id in visited && OutOfReach(visited[id], walks, stat, ToVisit(walks), workspace) ==>
              id in after && after[id] == visited[id]
  {
    ScanMarksExactly(db, fs, walks, stat, workspace, id);
  }

  lemma ScanCountsExactly(db: Db, fs: FileSystem, walks: seq<Walk>, stat: Path -> DirStat, workspace: Id)
    requires RootsDiffer(walks)
    ensures var visited := VisitAll(db, fs, ToVisit(walks), workspace).0;
            ScanFolders(db, fs, walks, stat, workspace).1.missing
            == |set id | id in visited.recordings
                         && GoesMissing(visited.recordings, walks, stat, ToVisit(walks), workspace, id)|
  {
    var recs := VisitAll(db, fs, ToVisit(walks), workspace).0.recordings;
    forall id | id in recs
      ensures id in ToSweep(recs, walks, stat, PathSet(ToVisit(walks)), workspace)
         <==> GoesMissing(recs, walks, stat, ToVisit(walks), workspace, id)
    {
      SweptExactly(recs, walks, stat, ToVisit(walks), workspace, id);
    }
    assert ToSweep(recs, walks, stat, PathSet(ToVisit(walks)), workspace)
        == set id | id in recs && GoesMissing(recs, walks, stat, ToVisit(walks), workspace, id);
  }
}
