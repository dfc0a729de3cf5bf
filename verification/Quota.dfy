/** The rolling transcription quota: what the ledger says was used in the last thirty days, and
    whether one more recording fits. */
module Quota {
  import opened Records

  const WINDOW: real := 2592000.0  // thirty days in seconds

  /** Workspace id to its `quota_minutes`; `None` is unlimited. */
  type Quotas = map<Id, Option<int>>

  datatype Verdict = Allowed | Exceeded | DurationUnknown

  predicate Counts(row: LedgerRow, workspace: Id, since: real) {
    && row.workspace == workspace
    && row.stage == TranscribeStage
    && row.succeeded
    && row.startedAt >= since
  }

  /** `sum(audio_sec)` skips rows without a length. */
  function Charge(row: LedgerRow): Seconds {
    if row.audioSec.Some? then row.audioSec.value else 0.0
  }

  function UsedSeconds(ledger: seq<LedgerRow>, workspace: Id, since: real): Seconds {
    if ledger == [] then 0.0
    else
      var last := ledger[|ledger| - 1];
      UsedSeconds(ledger[..|ledger| - 1], workspace, since)
      + if Counts(last, workspace, since) then Charge(last) else 0.0
  }

  function MinutesLeft(quota: int, usedMinutes: real): real {
    var left := quota as real - usedMinutes;
    if left > 0.0 then left else 0.0
  }

  function CheckMinutes(quota: Option<int>, usedMinutes: real, duration: Option<Seconds>): Verdict {
    if quota.None? then Allowed
    else if duration.None? then DurationUnknown
    else if duration.value / 60.0 > MinutesLeft(quota.value, usedMinutes) then Exceeded
    else Allowed
  }

  /** The gate a worker passes just before it sends audio to the runner. */
  function TranscriptionBlock(ledger: seq<LedgerRow>, quotas: Quotas, workspace: Id, duration: Option<Seconds>,
        now: real): Verdict {
    if workspace !in quotas then Allowed
    else CheckMinutes(quotas[workspace], UsedSeconds(ledger, workspace, now - WINDOW) / 60.0, duration)
  }

  lemma {:induction false} UsedSecondsOfConcat(a: seq<LedgerRow>, b: seq<LedgerRow>, workspace: Id, since: real)
    ensures UsedSeconds(a + b, workspace, since) == UsedSeconds(a, workspace, since) + UsedSeconds(b, workspace, since)
  {
    if b == [] {
      assert a + b == a;
    } else {
      UsedSecondsOfConcat(a, b[..|b| - 1], workspace, since);
      assert (a + b)[..|a + b| - 1] == a + b[..|b| - 1];
    }
  }

  /** A later window holds no more. */
  lemma {:induction false} UsedSecondsShrinks(ledger: seq<LedgerRow>, workspace: Id, since: real, later: real)
    requires since <= later
    ensures UsedSeconds(ledger, workspace, later) <= UsedSeconds(ledger, workspace, since)
  {
    if ledger != [] {
      UsedSecondsShrinks(ledger[..|ledger| - 1], workspace, since, later);
    }
  }

  /** The gate in seconds. It lets a length through when the workspace has no quota, when the length is zero, or
      when the usage of the last thirty days and the length fit the quota together; a length that cannot be read is told
      apart from one that is too long. */
  lemma GateInSeconds(ledger: seq<LedgerRow>, quotas: Quotas, workspace: Id, duration: Option<Seconds>, now: real)
    ensures var limited := workspace in quotas && quotas[workspace].Some?;
            var verdict := TranscriptionBlock(ledger, quotas, workspace, duration, now);
            && (verdict == DurationUnknown <==> limited && duration.None?)
            && (verdict == Allowed <==>
                  || !limited
                  || (duration.Some?
                      && (duration.value == 0.0
                          || UsedSeconds(ledger, workspace, now - 30.0 * 86400.0) + duration.value
                             <= 60.0 * quotas[workspace].value as real)))
  {
  }
}
