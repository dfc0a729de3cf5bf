/** What registering a file means, by content: when it is a move, a duplicate or new, and what the row holds then. */
module Placing {
  import opened Records
  import opened Ingest
  import opened Safety
  import Protocol

  /* ---------- the rows a file may belong to ---------- */

  /** A row of the workspace that has this content and is no duplicate of another. */
  predicate Original(recs: Table, hash: Hash, workspace: Id, id: Id) {
    id in recs && recs[id].workspace == workspace && recs[id].contentHash == Some(hash) && recs[id].duplicateOf.None?
  }

  /** Its file is gone or has other content by now. */
  predicate Lost(recs: Table, fs: FileSystem, hash: Hash, workspace: Id, id: Id) {
    Original(recs, hash, workspace, id) && !HasMatchingFile(fs, recs[id])
  }

  /** Its file is where it says. */
  predicate Kept(recs: Table, fs: FileSystem, hash: Hash, workspace: Id, id: Id) {
    Original(recs, hash, workspace, id) && HasMatchingFile(fs, recs[id]) && recs[id].status != Missing
  }

  /** A row from before contents were hashed that has the same partial hash. */
  predicate Unhashed(recs: Table, partialHash: Hash, workspace: Id, id: Id) {
    && id in recs && recs[id].workspace == workspace
    && recs[id].contentHash.None? && recs[id].partialHash == partialHash
    && recs[id].pathCurrent && recs[id].status != Duplicate && recs[id].status != Missing
  }

  /** With honest signatures, a row has its file in place exactly when the file at its path has its content. */
  lemma InPlaceMeansContent(r: Recording, fs: FileSystem)
    requires r.contentHash.Some?
    requires r.path in fs && r.signature == Some(fs[r.path].signature) ==> r.contentHash == Some(fs[r.path].hash)
    ensures HasMatchingFile(fs, r) <==> r.pathCurrent && r.path in fs && r.contentHash.value == fs[r.path].hash
  {
  }

  /* ---------- the row afterwards ---------- */

  predicate SameWork(a: Recording, b: Recording) {
    && a.workspace == b.workspace && a.source == b.source && a.contentHash == b.contentHash
    && a.title == b.title && a.summary == b.summary && a.sttMeta == b.sttMeta && a.segments == b.segments
    && a.error == b.error && a.requestId == b.requestId && a.runnerStartedAt == b.runnerStartedAt
    && a.duplicateOf == b.duplicateOf
  }

  /** The status that the artifacts call for. */
  predicate StatusFits(r: Recording) {
    if r.duplicateOf.Some? then r.status == Duplicate
    else if r.summary.Some? then r.status == Done
    else if HasTranscript(r) then r.status == Enriching
    else r.status == Pending
  }

  predicate SitsWithFile(r: Recording, path: Path, file: File) {
    && r.pathCurrent && r.path == path
    && r.signature == Some(file.signature) && r.partialHash == file.partialHash && r.duration == file.duration
  }

  /** A moved row takes the file's place and measurements, and its date if its name has one. All else is kept, an
      attempt under way included. */
  predicate MovedHere(before: Recording, after: Recording, path: Path, file: File) {
    && SameWork(before, after) && SitsWithFile(after, path, file) && StatusFits(after)
    && after.recordedAt == (if file.nameDate.Some? then file.nameDate else before.recordedAt)
  }

  /** A new row knows its file and nothing more. */
  predicate NewHere(r: Recording, path: Path, file: File, workspace: Id, source: Source, original: Option<Id>) {
    && SitsWithFile(r, path, file) && StatusFits(r)
    && r.workspace == workspace && r.source == source && r.contentHash == Some(file.hash)
    && r.recordedAt == file.nameDate && r.duplicateOf == original
    && r.title.None? && r.summary.None? && r.sttMeta.None? && r.segments == [] && r.error == NoError
    && r.requestId.None? && r.runnerStartedAt.None?
  }

  /** No row but this one differs. */
  predicate OthersStay(before: Table, after: Table, id: Id) {
    after.Keys == before.Keys + {id} && forall i | i in before && i != id :: after[i] == before[i]
  }

  /** One row was moved or made, and nothing else has changed. */
  predicate OneRowPlaced(db: Db, result: Result, path: Path, file: File, workspace: Id, source: Source) {
    && result.Ingested?
    && OthersStay(db.recordings, result.db.recordings, result.id)
    && result.db.ledger == db.ledger && result.db.issued == db.issued
    && var row := result.db.recordings[result.id];
       match result.outcome
       case Moved =>
         && result.id in db.recordings && result.db.nextId == db.nextId
         && MovedHere(db.recordings[result.id], row, path, file)
       case New =>
         && result.id == db.nextId && result.db.nextId == db.nextId + 1
         && NewHere(row, path, file, workspace, source, None)
       case Duplicated =>
         && result.id == db.nextId && result.db.nextId == db.nextId + 1
         && row.duplicateOf.Some? && NewHere(row, path, file, workspace, source, row.duplicateOf)
       case _ => false
  }

  lemma PlacingChangesOneRow(db: Db, fs: FileSystem, path: Path, workspace: Id, source: Source)
    requires path in fs && db.nextId !in db.recordings
    ensures OneRowPlaced(db, Place(db, fs, path, workspace, source), path, fs[path], workspace, source)
  {
  }

  /* ---------- move, duplicate or new ---------- */

  /** The decision: a row that lost this content is moved; else a row that has its file in place, or failing that one
      from before contents were hashed, is the original of a duplicate; else the file is new. Of several rows it is
      the oldest each time. */
  ghost predicate Decided(db: Db, fs: FileSystem, file: File, workspace: Id, result: Result)
    requires result.Ingested? && result.id in result.db.recordings
  {
    var recs, original := db.recordings, result.db.recordings[result.id].duplicateOf;
    if exists i :: Lost(recs, fs, file.hash, workspace, i) then
      && result.outcome == Moved
      && Lost(recs, fs, file.hash, workspace, result.id)
      && forall i | Lost(recs, fs, file.hash, workspace, i) :: result.id <= i
    else if exists i :: Kept(recs, fs, file.hash, workspace, i) then
      && result.outcome == Duplicated && original.Some?
      && Kept(recs, fs, file.hash, workspace, original.value)
      && forall i | Kept(recs, fs, file.hash, workspace, i) :: original.value <= i
    else if exists i :: Unhashed(recs, file.partialHash, workspace, i) then
      && result.outcome == Duplicated && original.Some?
      && Unhashed(recs, file.partialHash, workspace, original.value)
      && forall i | Unhashed(recs, file.partialHash, workspace, i) :: original.value <= i
    else result.outcome == New
  }

  lemma OriginalIs(db: Db, hash: Hash, workspace: Id, id: Id)
    requires RowsOk(db) && id in db.recordings
    ensures Original(db.recordings, hash, workspace, id) <==> ByContent(db.recordings[id], hash, workspace)
    ensures id < db.nextId
  {
    assert RowOk(db.recordings[id], db.issued);
  }

  lemma FindMovedIs(db: Db, fs: FileSystem, hash: Hash, workspace: Id)
    requires RowsOk(db)
    ensures match FindMoved(db, fs, hash, workspace)
            case Some(m) => Lost(db.recordings, fs, hash, workspace, m)
                            && forall i | Lost(db.recordings, fs, hash, workspace, i) :: m <= i
            case None => forall i :: !Lost(db.recordings, fs, hash, workspace, i)
  {
    forall i | i in db.recordings
      ensures i < db.nextId
      ensures Original(db.recordings, hash, workspace, i) <==> ByContent(db.recordings[i], hash, workspace)
    {
      OriginalIs(db, hash, workspace, i);
    }
  }

  lemma FindOriginalIs(db: Db, fs: FileSystem, file: File, workspace: Id)
    requires RowsOk(db)
    ensures var recs, found := db.recordings, FindOriginal(db, fs, file, workspace);
            if exists i :: Kept(recs, fs, file.hash, workspace, i) then
              && found.Some? && Kept(recs, fs, file.hash, workspace, found.value)
              && forall i | Kept(recs, fs, file.hash, workspace, i) :: found.value <= i
            else if exists i :: Unhashed(recs, file.partialHash, workspace, i) then
              && found.Some? && Unhashed(recs, file.partialHash, workspace, found.value)
              && forall i | Unhashed(recs, file.partialHash, workspace, i) :: found.value <= i
            else found.None?
  {
    forall i | i in db.recordings
      ensures i < db.nextId
      ensures Original(db.recordings, file.hash, workspace, i) <==> ByContent(db.recordings[i], file.hash, workspace)
    {
      OriginalIs(db, file.hash, workspace, i);
    }
    var found := FindOriginal(db, fs, file, workspace);
    assert found.Some? ==>
        || Kept(db.recordings, fs, file.hash, workspace, found.value)
        || Unhashed(db.recordings, file.partialHash, workspace, found.value);
  }

  lemma PlacingDecides(db: Db, fs: FileSystem, path: Path, workspace: Id, source: Source)
    requires RowsOk(db) && path in fs
    ensures var result := Place(db, fs, path, workspace, source);
            result.Ingested? && result.id in result.db.recordings && Decided(db, fs, fs[path], workspace, result)
  {
    FindMovedIs(db, fs, fs[path].hash, workspace);
    FindOriginalIs(db, fs, fs[path], workspace);
  }

  /** A file at a path that no current row holds. */
  lemma FreePathIsDecided(db: Db, fs: FileSystem, path: Path, workspace: Id, source: Source, verifyExisting: bool)
    requires RowsOk(db) && path in fs && (forall i | i in db.recordings :: !SitsAt(db.recordings[i], path))
    ensures var result := IngestFile(db, fs, path, workspace, source, verifyExisting);
            && OneRowPlaced(db, result, path, fs[path], workspace, source)
            && Decided(db, fs, fs[path], workspace, result)
  {
    PlacingChangesOneRow(db, fs, path, workspace, source);
    PlacingDecides(db, fs, path, workspace, source);
  }

  /* ---------- a path that has a row ---------- */

  /** The file's content is the row's, by the hash, or by the partial hash while the row has no other. */
  predicate HasContent(r: Recording, file: File) {
    if r.contentHash.Some? then r.contentHash.value == file.hash else r.partialHash == file.partialHash
  }

  /** Not looked into: the signature is the one on record, and the caller takes that for the content. */
  predicate TakenAsRead(r: Recording, file: File, verifyExisting: bool) {
    !verifyExisting && r.contentHash.Some? && r.signature == Some(file.signature) && r.status != Missing
  }

  /** The row knows its file again. A missing one goes on where its artifacts say, and so does one that was noted as
      changed, which loses the note. */
  predicate RefreshedHere(before: Recording, after: Recording, file: File) {
    && before.workspace == after.workspace && before.source == after.source
    && before.path == after.path && before.pathCurrent == after.pathCurrent
    && before.partialHash == after.partialHash && before.recordedAt == after.recordedAt
    && before.title == after.title && before.summary == after.summary
    && before.sttMeta == after.sttMeta && before.segments == after.segments
    && before.requestId == after.requestId && before.runnerStartedAt == after.runnerStartedAt
    && before.duplicateOf == after.duplicateOf
    && after.signature == Some(file.signature) && after.contentHash == Some(file.hash)
    && after.duration == file.duration
    && if before.status == Missing then StatusFits(after) && after.error == before.error
       else if before.error == SourceChanged then StatusFits(after) && after.error == NoError
       else after.status == before.status && after.error == before.error
  }

  /** The row at a path whose file has other content keeps its work and lets go of the path and of its request. */
  predicate GaveWay(before: Recording, after: Recording) {
    && !after.pathCurrent && after.status == Missing && after.requestId.None? && after.runnerStartedAt.None?
    && before.workspace == after.workspace && before.source == after.source && before.path == after.path
    && before.signature == after.signature && before.partialHash == after.partialHash
    && before.contentHash == after.contentHash && before.recordedAt == after.recordedAt
    && before.duration == after.duration && before.title == after.title && before.summary == after.summary
    && before.sttMeta == after.sttMeta && before.segments == after.segments && before.error == after.error
    && before.duplicateOf == after.duplicateOf
  }

  /** One row refreshed, and nothing else changed. */
  predicate OneRowRefreshed(db: Db, result: Result, id: Id, file: File) {
    && result.Ingested? && result.id == id && id in db.recordings
    && OthersStay(db.recordings, result.db.recordings, id)
    && result.db == db.(recordings := result.db.recordings)
    && result.outcome == (if db.recordings[id].status == Missing then Reappeared else Existing)
    && RefreshedHere(db.recordings[id], result.db.recordings[id], file)
  }

  /** The row gave way, and in what is left the file is placed as at a free path. */
  ghost predicate OneRowReplaced(db: Db, fs: FileSystem, path: Path, workspace: Id, result: Result, id: Id)
    requires path in fs
  {
    && id in db.recordings
    && exists old': Recording ::
         && GaveWay(db.recordings[id], old')
         && var left := db.(recordings := db.recordings[id := old']);
         && OneRowPlaced(left, result, path, fs[path], workspace, Scanned)
         && Decided(left, fs, fs[path], workspace, result)
  }

  lemma ReplacingDecides(db: Db, fs: FileSystem, path: Path, workspace: Id, id: Id)
    requires RowsOk(db) && path in fs && id in db.recordings && db.recordings[id].pathCurrent
    ensures var left := WithRow(db, id, LetGo(db.recordings[id]));
            OneRowReplaced(db, fs, path, workspace, Place(left, fs, path, workspace, Scanned), id)
  {
    var r := db.recordings[id];
    var left := WithRow(db, id, LetGo(r));
    assert RowOk(r, db.issued);
    assert GaveWay(r, LetGo(r));
    assert RowsOk(left);
    PlacingChangesOneRow(left, fs, path, workspace, Scanned);
    PlacingDecides(left, fs, path, workspace, Scanned);
  }

  lemma RefreshingHere(r: Recording, file: File)
    ensures RefreshedHere(r, Refreshed(r, file), file)
  {
  }

  lemma RefreshingDecides(db: Db, fs: FileSystem, path: Path, workspace: Id, source: Source, verifyExisting: bool,
        id: Id)
    requires path in fs && id in db.recordings && HasContent(db.recordings[id], fs[path])
    requires db.recordings[id].workspace == workspace && db.recordings[id].source == source
    requires !TakenAsRead(db.recordings[id], fs[path], verifyExisting)
    ensures OneRowRefreshed(db, Revisit(db, id, fs, path, workspace, source, verifyExisting), id, fs[path])
  {
    RefreshingHere(db.recordings[id], fs[path]);
  }

  /** The result for a file at a path that this row holds. Another workspace's row, or one that came in the other way,
      is left alone; so is an upload whose file has other content. */
  ghost predicate DecidedByHolder(db: Db, fs: FileSystem, path: Path, workspace: Id, source: Source,
        verifyExisting: bool, result: Result, id: Id)
    requires path in fs && id in db.recordings
  {
    var r, file := db.recordings[id], fs[path];
    if r.workspace != workspace || r.source != source then result == Refused(PathTaken)
    else if TakenAsRead(r, file, verifyExisting) then result == Ingested(db, id, Existing)
    else if HasContent(r, file) then OneRowRefreshed(db, result, id, file)
    else if source == Uploaded then result == Refused(UploadReplaced)
    else OneRowReplaced(db, fs, path, workspace, result, id)
  }

  lemma HeldPathIsDecided(db: Db, fs: FileSystem, path: Path, workspace: Id, source: Source, verifyExisting: bool,
        id: Id)
    requires RowsOk(db) && OnePerPath(db.recordings) && path in fs
    requires id in db.recordings && SitsAt(db.recordings[id], path)
    ensures DecidedByHolder(db, fs, path, workspace, source, verifyExisting,
                            IngestFile(db, fs, path, workspace, source, verifyExisting), id)
  {
    var r := db.recordings[id];
    assert CurrentAt(db, path) == Some(id);
    if r.workspace != workspace || r.source != source || TakenAsRead(r, fs[path], verifyExisting) {
    } else if HasContent(r, fs[path]) {
      RefreshingDecides(db, fs, path, workspace, source, verifyExisting, id);
    } else if source == Scanned {
      ReplacingDecides(db, fs, path, workspace, id);
    }
  }

  /** What registering a file comes to, in a database and for a file system; `holder` is the row at the path, if any. */
  ghost predicate Registers(db: Db, fs: FileSystem, path: Path, workspace: Id, source: Source, verifyExisting: bool,
        holder: Option<Id>, result: Result) {
    if path !in fs then result == Refused(FileGone)
    else
      match holder
      case Some(id) =>
        && id in db.recordings && SitsAt(db.recordings[id], path)
        && DecidedByHolder(db, fs, path, workspace, source, verifyExisting, result, id)
      case None =>
        && (forall id | id in db.recordings :: !SitsAt(db.recordings[id], path))
        && OneRowPlaced(db, result, path, fs[path], workspace, source)
        && Decided(db, fs, fs[path], workspace, result)
  }

  lemma IngestingRegisters(db: Db, fs: FileSystem, path: Path, workspace: Id, source: Source, verifyExisting: bool)
    returns (holder: Option<Id>)
    requires RowsOk(db) && OnePerPath(db.recordings)
    ensures Registers(db, fs, path, workspace, source, verifyExisting, holder,
                      IngestFile(db, fs, path, workspace, source, verifyExisting))
  {
    holder := CurrentAt(db, path);
    if path in fs {
      if holder.Some? {
        HeldPathIsDecided(db, fs, path, workspace, source, verifyExisting, holder.value);
      } else {
        assert forall id | id in db.recordings :: id < db.nextId;
        FreePathIsDecided(db, fs, path, workspace, source, verifyExisting);
      }
    }
  }

  /* ---------- over every run ---------- */

  /** In every run a registration comes to that, a refusal changes nothing, and no worker notices. */
  lemma {:induction false} RegisteringIsDecided(events: seq<Protocol.Event>, e: Protocol.Event)
    returns (holder: Option<Id>, result: Result)
    requires e.Register?
    ensures var s := Protocol.Run(Protocol.INITIAL, events);
            && Registers(s.db, e.fs, e.path, e.workspace, e.source, e.verifyExisting, holder, result)
            && Protocol.Next(s, e) == if result.Ingested? then s.(db := result.db) else s
  {
    RunKeeps(Protocol.INITIAL, events);
    var db := Protocol.Run(Protocol.INITIAL, events).db;
    result := IngestFile(db, e.fs, e.path, e.workspace, e.source, e.verifyExisting);
    holder := IngestingRegisters(db, e.fs, e.path, e.workspace, e.source, e.verifyExisting);
  }

  /** A row of a duplicate of the oldest row that has this content and its file in place. */
  ghost predicate DuplicateOfOldest(before: Table, fs: FileSystem, file: File, workspace: Id, row: Recording) {
    && row.status == Duplicate && row.duplicateOf.Some?
    && Kept(before, fs, file.hash, workspace, row.duplicateOf.value)
    && forall i | Kept(before, fs, file.hash, workspace, i) :: row.duplicateOf.value <= i
  }

  /** So a second copy of a file that is registered and in place is not transcribed: it becomes such a duplicate, and no
      worker can claim it. */
  lemma {:induction false} SecondCopyIsADuplicate(events: seq<Protocol.Event>, e: Protocol.Event)
    requires e.Register? && e.path in e.fs
    requires var recs := Protocol.Run(Protocol.INITIAL, events).db.recordings;
             && (forall i | i in recs :: !SitsAt(recs[i], e.path))
             && (forall i :: !Lost(recs, e.fs, e.fs[e.path].hash, e.workspace, i))
             && (exists i :: Kept(recs, e.fs, e.fs[e.path].hash, e.workspace, i))
    ensures var before := Protocol.Run(Protocol.INITIAL, events).db;
            var after := Protocol.Next(Protocol.Run(Protocol.INITIAL, events), e).db.recordings;
            && before.nextId in after && !Claimable(after[before.nextId])
            && DuplicateOfOldest(before.recordings, e.fs, e.fs[e.path], e.workspace, after[before.nextId])
  {
    RunKeeps(Protocol.INITIAL, events);
    SecondCopy(Protocol.Run(Protocol.INITIAL, events).db, e.fs, e.path, e.workspace, e.source, e.verifyExisting);
  }

  lemma SecondCopy(db: Db, fs: FileSystem, path: Path, workspace: Id, source: Source, verifyExisting: bool)
    requires RowsOk(db) && path in fs && (forall i | i in db.recordings :: !SitsAt(db.recordings[i], path))
    requires forall i :: !Lost(db.recordings, fs, fs[path].hash, workspace, i)
    requires exists i :: Kept(db.recordings, fs, fs[path].hash, workspace, i)
    ensures var result := IngestFile(db, fs, path, workspace, source, verifyExisting);
            && result.Ingested? && db.nextId in result.db.recordings
            && !Claimable(result.db.recordings[db.nextId])
            && DuplicateOfOldest(db.recordings, fs, fs[path], workspace, result.db.recordings[db.nextId])
  {
    FreePathIsDecided(db, fs, path, workspace, source, verifyExisting);
  }
}
