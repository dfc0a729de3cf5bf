/** The tables the archive keeps: recordings, the ledger of processing stages, and the request
    ids handed to the transcription runner. */
module Records {

  datatype Option<+T> = None | Some(value: T)

  type Id = nat
  type Hash = string
  /** A resolved path, as its components: `p.is_relative_to(q)` is `q <= p`. */
  type Path = seq<string>

  type Seconds = s: real | s >= 0.0

  datatype Signature = Signature(device: int, inode: int, size: int, mtime: int, ctime: int)

  datatype Status =
    | Pending | Transcribing | Diarizing | Summarizing | Enriching
    | Done | Failed | Missing | Duplicate | QuotaBlocked

  datatype Source = Scanned | Uploaded

  /** The `error` column, by the prefixes the program tells apart. */
  datatype ErrorNote = NoError | SourceChanged | DiarizeFailed | OtherError

  datatype Segment = Segment(startSec: Seconds, endSec: Seconds, text: string)

  datatype Recording = Recording(
    workspace: Id,
    source: Source,
    path: Path,
    pathCurrent: bool,
    signature: Option<Signature>,
    partialHash: Hash,
    contentHash: Option<Hash>,
    recordedAt: Option<int>,
    duration: Option<Seconds>,
    title: Option<string>,
    summary: Option<string>,
    sttMeta: Option<string>,
    segments: seq<Segment>,
    status: Status,
    error: ErrorNote,
    requestId: Option<nat>,
    runnerStartedAt: Option<real>,
    duplicateOf: Option<Id>)

  type Table = map<Id, Recording>

  datatype Stage = TranscribeStage | EnrichStage

  /** `declared` is history kept by the model alone: the length the quota gate saw at admission. */
  datatype LedgerRow = LedgerRow(
    workspace: Id,
    recording: Option<Id>,
    stage: Stage,
    succeeded: bool,
    startedAt: real,
    audioSec: Option<Seconds>,
    declared: Option<Seconds>)

  /** `issued[t]` is the instant at which request id `t` was made, so the next fresh id is `|issued|`. */
  datatype Db = Db(recordings: Table, nextId: Id, ledger: seq<LedgerRow>, issued: seq<real>)

  /** A successful transcription with no segments still leaves its metadata behind. */
  predicate HasTranscript(r: Recording) {
    r.sttMeta.Some? || r.segments != []
  }

  predicate InFlight(s: Status) {
    s == Transcribing || s == Diarizing || s == Summarizing
  }

  predicate Claimable(r: Recording) {
    r.pathCurrent && (r.status == Pending || r.status == Enriching)
  }

  /** Where a stopped recording goes on, read off the artifacts it has stored. */
  function ResumeStatus(r: Recording): Status {
    if r.duplicateOf.Some? then Duplicate
    else if r.summary.Some? then Done
    else if HasTranscript(r) then Enriching
    else Pending
  }

  /** The same decision as the bulk SQL updates write it: they leave the duplicate test out. */
  function CaseStatus(r: Recording): Status {
    if r.summary.Some? then Done
    else if HasTranscript(r) then Enriching
    else Pending
  }

  /** The lowest id in `[lo, hi)` whose row passes the test: `ORDER BY id LIMIT 1`. */
  function FirstRow(recs: Table, lo: Id, hi: Id, test: Recording -> bool): (r: Option<Id>)
    ensures r.Some? ==> lo <= r.value < hi && r.value in recs && test(recs[r.value])
    ensures r.Some? ==> forall i :: lo <= i < r.value && i in recs ==> !test(recs[i])
    ensures r.None? ==> forall i :: lo <= i < hi && i in recs ==> !test(recs[i])
    decreases hi - lo
  {
    if lo >= hi then None
    else if lo in recs && test(recs[lo]) then Some(lo)
    else FirstRow(recs, lo + 1, hi, test)
  }

  /** All ids below `hi` whose rows pass the test, in ascending order. */
  function RowsWhere(recs: Table, hi: Id, test: Recording -> bool): (r: seq<Id>)
    ensures forall i: Id :: i in r <==> i < hi && i in recs && test(recs[i])
    ensures forall j, k | 0 <= j < k < |r| :: r[j] < r[k]
  {
    if hi == 0 then []
    else
      var rest := RowsWhere(recs, hi - 1, test);
      if hi - 1 in recs && test(recs[hi - 1]) then
        assert forall k | 0 <= k < |rest| :: rest[k] in rest;
        rest + [hi - 1]
      else rest
  }

  function IdSet(ids: seq<Id>): set<Id> {
    set id | id in ids
  }

  lemma {:induction false} DistinctSize(ids: seq<Id>)
    requires forall j, k | 0 <= j < k < |ids| :: ids[j] != ids[k]
    ensures |IdSet(ids)| == |ids|
  {
    if ids != [] {
      var n := |ids| - 1;
      DistinctSize(ids[..n]);
      assert IdSet(ids) == IdSet(ids[..n]) + {ids[n]};
      assert ids[n] !in ids[..n];
    }
  }
}
