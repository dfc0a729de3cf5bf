/** Registering one file: same, replaced, moved, duplicate, reappeared or new. */
module Ingest {
  import opened Records

  /** What a stat, a full read and ffprobe say about a file; `nameDate` is the date in its name. */
  datatype File = File(
    signature: Signature, hash: Hash, partialHash: Hash, duration: Option<Seconds>, nameDate: Option<int>)

  type FileSystem = map<Path, File>

  datatype Outcome = New | Duplicated | Reappeared | Moved | Existing

  datatype Refusal = FileGone | PathTaken | UploadReplaced

  datatype Result = Ingested(db: Db, id: Id, outcome: Outcome) | Refused(reason: Refusal)

  predicate SitsAt(r: Recording, path: Path) {
    r.pathCurrent && r.path == path
  }

  function CurrentAt(db: Db, path: Path): Option<Id> {
    FirstRow(db.recordings, 0, db.nextId, r => SitsAt(r, path))
  }

  predicate HasMatchingFile(fs: FileSystem, r: Recording) {
    && r.pathCurrent
    && r.path in fs
    && (r.signature == Some(fs[r.path].signature) || r.contentHash == Some(fs[r.path].hash))
  }

  predicate ByContent(r: Recording, hash: Hash, workspace: Id) {
    && r.workspace == workspace
    && r.contentHash == Some(hash)
    && r.status != Duplicate
    && r.duplicateOf.None?
  }

  predicate ByPartialHash(r: Recording, partialHash: Hash, workspace: Id) {
    && r.workspace == workspace
    && r.partialHash == partialHash
    && r.contentHash.None?
    && r.pathCurrent
    && r.status != Duplicate
    && r.status != Missing
  }

  function FindMoved(db: Db, fs: FileSystem, hash: Hash, workspace: Id): Option<Id> {
    FirstRow(db.recordings, 0, db.nextId, r => ByContent(r, hash, workspace) && !HasMatchingFile(fs, r))
  }

  function FindOriginal(db: Db, fs: FileSystem, file: File, workspace: Id): Option<Id> {
    var byContent := FirstRow(db.recordings, 0, db.nextId,
                              r => ByContent(r, file.hash, workspace) && r.status != Missing && HasMatchingFile(fs, r));
    if byContent.Some? then byContent
    else FirstRow(db.recordings, 0, db.nextId, r => ByPartialHash(r, file.partialHash, workspace))
  }

  predicate SameContent(r: Recording, file: File) {
    r.contentHash == Some(file.hash) || (r.contentHash.None? && r.partialHash == file.partialHash)
  }

  /** The row at a path whose file still has the row's content. */
  function Refreshed(r: Recording, file: File): Recording {
    var r1 := r.(signature := Some(file.signature), contentHash := Some(file.hash), duration := file.duration);
    if r1.status == Missing then r1.(status := ResumeStatus(r1))
    else if r1.error == SourceChanged then r1.(status := ResumeStatus(r1), error := NoError)
    else r1
  }

  /** The row at a path whose file has been replaced lets go of the path and keeps its artifacts. */
  function LetGo(r: Recording): Recording {
    r.(pathCurrent := false, status := Missing, requestId := None, runnerStartedAt := None)
  }

  function MovedTo(r: Recording, path: Path, file: File): Recording {
    var r1 := r.(path := path, partialHash := file.partialHash, pathCurrent := true,
    signature := Some(file.signature), duration := file.duration,
    recordedAt := if file.nameDate.Some? then file.nameDate else r.recordedAt);
    r1.(status := ResumeStatus(r1))
  }

  function Registered(path: Path, file: File, workspace: Id, source: Source, original: Option<Id>): Recording {
    Recording(workspace, source, path, true, Some(file.signature), file.partialHash, Some(file.hash),
              file.nameDate, file.duration, None, None, None, [],
              if original.Some? then Duplicate else Pending, NoError, None, None, original)
  }

  function WithRow(db: Db, id: Id, r: Recording): Db {
    db.(recordings := db.recordings[id := r])
  }

  /** A path no current row holds takes in a file: a move if a row lost this content, else a new row. */
  function Place(db: Db, fs: FileSystem, path: Path, workspace: Id, source: Source): Result
    requires path in fs
  {
    var file := fs[path];
    var moved := FindMoved(db, fs, file.hash, workspace);
    if moved.Some? then
      Ingested(WithRow(db, moved.value, MovedTo(db.recordings[moved.value], path, file)), moved.value, Moved)
    else
      var original := FindOriginal(db, fs, file, workspace);
      var row := Registered(path, file, workspace, source, original);
      Ingested(WithRow(db, db.nextId, row).(nextId := db.nextId + 1), db.nextId,
               if original.Some? then Duplicated else New)
  }

  /** The path already has a current row. */
  function Revisit(db: Db, id: Id, fs: FileSystem, path: Path, workspace: Id, source: Source,
        verifyExisting: bool): Result
    requires path in fs && id in db.recordings
  {
    var row, file := db.recordings[id], fs[path];
    if row.workspace != workspace || row.source != source then Refused(PathTaken)
    else if && !verifyExisting && row.contentHash.Some?
            && row.signature == Some(file.signature) && row.status != Missing then
      Ingested(db, id, Existing)
    else if SameContent(row, file) then
      Ingested(WithRow(db, id, Refreshed(row, file)), id, if row.status == Missing then Reappeared else Existing)
    else if source != Scanned then Refused(UploadReplaced)
    else Place(WithRow(db, id, LetGo(row)), fs, path, workspace, source)
  }

  function IngestFile(db: Db, fs: FileSystem, path: Path, workspace: Id, source: Source, verifyExisting: bool): Result {
    if path !in fs then Refused(FileGone)
    else
      var existing := CurrentAt(db, path);
      if existing.None? then Place(db, fs, path, workspace, source)
      else Revisit(db, existing.value, fs, path, workspace, source, verifyExisting)
  }
}
