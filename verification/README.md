# Verification of the soriham-api core

soriham-api keeps an archive of audio recordings. Files are registered by what they contain, workers claim them in turn,
have a runner transcribe them and then summarise them, and every transcription is charged to a thirty-day ledger. This
project models the parts of it that are protocols or algorithms and proves what they promise.

`dafny verify dfyconfig.toml` checks everything (Dafny 4.11).

## How it is laid out

| Modules | What they hold |
|---|---|
| `Records`, `Ingest`, `Quota`, `Protocol` | The tables, and every database commit as a function from one database to the next; `Protocol.Next` is the transition system with any number of workers that may stop between two commits |
| `Safety`, `Guarantees` | The invariant every step keeps, and what it means for whole runs: billing, the request-id fence, identity, duplicates, usage |
| `Outcomes`, `Attempts`, `Placing`, `Upkeep` | What each kind of step does to each row, in the words of the promise: storing a result or a failure, starting an attempt under the stored request, registering a file by its content, maintenance and deletion |
| `QuotaBound` | The rolling quota over whole runs of one worker |
| `Claim`, `Turns` | Round-robin claiming and exactly when it misses work; bounded waiting |
| `Scan`, `Sweeping`, `Renaming`, `Rescan`, `Overwritten`, `Folders` | Scanning folders: what a visit may touch, which recordings are marked missing, renames, swaps and cycles, exactly when scanning twice is scanning once, and how an upload comes to a scanned path |
| `Store` | The same operations as the program runs them: a class whose methods update tables in loops, each proved equal to its function |
| `Runner`, `Calls` | The client of the transcription runner: polling, resubmitting, the deadline, and what a whole call comes to |
| `Limiter`, `Media`, `Watch`, `Names` | The fixed-window limiter, range streaming, the watch debouncer, free names for uploads |
| `Tenancy`, `Members`, `Shares`, `Roster` | Memberships and invites over all runs, who gets in as what, reserved shares, and the class whose methods run them row by row |
| `Estate` | The archive and its tenants as one system with its foreign keys: usage over runs of both, and exactly what a finished transcription is charged |

## What is assumed

- `uuid4` never repeats: a request id is the number of ids issued before it. SHA-256 is injective, so a hash stands for
  its content, and equal file signatures mean equal content.
- A commit is one atomic step, and so are a request handler, the registration of one file, the recovery of stopped
  recordings, the retry of failed ones and the release of those held by the quota. Row locks appear as the set of rows
  other workers hold.
- The unique, check, cascade and set-null rules of the tables are taken as given.
- The length ffprobe reports is a function of content. Seconds are non-negative reals; rounding is not modelled.
- The scanned roots are pairwise different: the program takes them from a set.
- Which in-flight rows are stale is arbitrary: recovery may take any of them, also one whose worker is still alive.
- The runner, the summariser, clocks and the file system answer arbitrarily within their types.

## What was found

- **A claim can miss work.** `claim_next` comes back empty although a free workspace has work exactly when an idle
  workspace ahead of the first one with work does not fall behind it on being stamped: when that one's own stamp is
  later than now, or equal to now with the higher id (`Claim.ClaimMissesWorkExactly`). No clock need be skewed for it:
  the instant is read once, and another worker may commit a later one meanwhile. `Claim.EqualStampMissesWork` is such
  a queue, one that registering two files leads to. With all stamps in the past nothing is missed.
- **A recording of length zero passes an exhausted quota**, whatever it turns out to hold
  (`QuotaBound.ZeroLengthPassesAnExhaustedQuota`). The bound on usage accounts for it.
- **The deadline of a request slips by the time an attempt spends before it calls the runner**, which includes hashing a
  scanned file. The bound counted from the request id alone holds exactly when no such time passes or the time is
  already up (`Runner.DeadlineExactlyWithoutDelay`).
- **Scanning twice is not always scanning once.** `find_moved` does not ask for the source, so an upload whose file turns
  up in a scanned folder is moved there and stays an upload, although the upload folder and the scanned folders do not
  overlap. When that file is then overwritten, a scan is refused at its path, can carry the upload off to where its
  content is by now, and leaves the path vacant for the second scan (`Folders.MovedUploadBreaksIdempotence`, a run from
  the empty database). Such moves are the only way across (`Folders.StraysWereMoved`), and without them scanning twice is
  scanning once (`Folders.ApartScansOnce`). In general the second scan has nothing to do exactly when the first left a
  current row at every path it visited; and read off before the first, where contents are pairwise different, exactly
  when no overwritten upload sits at a visited path while its content turns up at a path visited later whose visit is
  not refused (`Overwritten.ScanIsIdempotentExactly`).
- **A moved row carries its old "source changed" note** until the next scan removes it. That is the one thing a second
  scan may change, and it changes nothing exactly when no visited path has such a note (`Rescan.NothingChangesExactly`).
- **Deleting a recording while it is transcribed can avoid its charge.** The result is charged, as the length declared at
  admission and not as what was heard, only if the workspace still stands and no progress report fell between the
  deletion and the result. A report, at each percent and every thirty seconds, updates the row that is gone; that fails
  and ends the stage with nothing logged. `Estate.ChargedExactly` says for every run what a result adds to usage, and
  when; `Estate.DeletedAndReportedLosesTheCharge` and `Estate.DeletedAndRejectedLosesTheCharge` are runs from the empty
  database for the two ways to lose it: a report, and a rejection, since `_drop_empty_personal_workspaces` does not look
  at work in flight. The runner in tests/test_quota.py:390-416 deletes and reports nothing. Usage once recorded is never
  lost.
- **Ranges beyond the three forms are accepted**: `bytes=5` is read as `bytes=5-`, and whatever else `int()` reads, signs,
  underscores, blanks and other scripts' digits among it: `bytes=+5-10`, `bytes=1_0-20`, and `bytes=0--0` as the first
  byte. Section 14.1.1 of RFC 9110 allows none of these. An accepted text spells no form exactly when it has no dash or
  something other than digits before or after the first (`Media.AcceptedUnspelledExactly`).
- The bulk updates in `retry_failed` and `release_quota_blocked` leave out the duplicate test of `resume_status`. They
  agree with it on every reachable row, and always come to `pending` there.

## Model

| member | source | states |
|---|---|---|
| `Safety.NextKeeps` | src/soriham_api/worker.py:80-682 | Every commit of every actor keeps the invariant (an open request id means no stored transcript and a current path; status and artifacts agree; duplicates form a forest; one current row for a path; bills match transcripts) and leads to a database that continues the old one |
| `Safety.RunKeeps` | src/soriham_api/worker.py:80-682 | The same for every sequence of commits |
| `Safety.BeginKeeps` | src/soriham_api/worker.py:403-413 | Starting an attempt keeps the invariant, and a job it starts is in order; that the stored request is carried on is `Attempts.BeginningIsBegun` |
| `Safety.FinishKeeps` | src/soriham_api/worker.py:469-586 | However the runner call ended, the commit after it keeps the invariant, the ledger included |
| `Safety.EndSummaryKeeps` | src/soriham_api/worker.py:589-629 | Ending the summary stage keeps it, also when the recording was deleted or replaced meanwhile |
| `Safety.DeleteKeeps` | src/soriham_api/app.py:369-382 | Deleting a recording keeps it: duplicates are revived, ledger rows are unlinked and stay |
| `Safety.RegisterKeeps` | src/soriham_api/ingest.py:208-318 | Registering a file keeps it in all cases: same, replaced, moved, duplicate, reappeared, new, refused |
| `Guarantees.BilledExactlyOnce` | src/soriham_api/worker.py:471-511 | In every run a recording that exists has one linked successful transcription on the ledger if its transcript is stored, and none otherwise |
| `Guarantees.TranscriptIsWrittenOnce` | src/soriham_api/worker.py:489-505 | A stored transcript is never replaced or lost while its recording exists, and the recording is never queued for transcription again |
| `Guarantees.IdentityFollowsContent` | src/soriham_api/ingest.py:225-318 | Across any run, content and tenant under an id never change, and a deleted id does not come back |
| `Guarantees.FencedForever` | src/soriham_api/worker.py:80-92 | A worker that has lost its request never holds it again, whatever follows |
| `Guarantees.FencedReplyStoresNothing` | src/soriham_api/worker.py:471-488 | Whatever a fenced worker comes back with, no recording changes and no recording is billed |
| `Guarantees.WhatFences` | src/soriham_api/worker.py:565-586 | Storing a result, replacing the file and deleting the recording each fence every other worker on that recording |
| `Guarantees.OneClockPerRequest` | src/soriham_api/worker.py:403-406 | All attempts under one request id count from the same instant, the one stored beside the id |
| `Protocol.JobTimeout` | src/soriham_api/worker.py:388-390 | The least limit that is an hour and twenty times the length |
| `Guarantees.DuplicatesPointAtOriginals` | src/soriham_api/ingest.py:182-193 | A row that points at another is a duplicate or missing, has no transcript, and points at an existing row of its workspace that points nowhere |
| `Guarantees.DeletingRevivesDuplicates` | src/soriham_api/app.py:369-382 | After deleting an original no row points at it, each of its duplicates can be claimed, and no other row changed |
| `Guarantees.BulkResumeAgrees` | src/soriham_api/worker.py:126-143 | On every failed or held row of a reachable database the bulk CASE and `resume_status` agree |
| `Guarantees.LedgerMoves` | src/soriham_api/models.py:494-499 | A step appends one row, unlinks a deleted recording's rows, or leaves the ledger |
| `Guarantees.UsageCannotBeReset` | src/soriham_api/quota.py:58-68 | At a fixed instant no run of the archive's own commits lowers a workspace's usage; `Estate.UsageCannotBeReset` adds the tenants |
| `Guarantees.ChargeReachesTheLastWord` | src/soriham_api/worker.py:506-511 | A bill reaches the last word of the transcript and the probed length, is no more than the larger of the two, and is the length the recording has from then on |
| `Guarantees.NoDeadEnds` | src/soriham_api/worker.py:95-254 | In every run each current recording can be claimed, or one maintenance step makes it so (retry, requeue, recovery, release), or it is finished or points at its original, or it waits for its file and a visit that finds its content again leads it on; recovery repeats no finished transcription |
| `Outcomes.HeldResultIsStored` | src/soriham_api/worker.py:489-586 | In every run, a result that comes back to a worker still holding the request is stored as it is: the row has just the segments and metadata heard, no request, the note exactly when the speakers could not be told apart, and goes on to its summary under the same worker; no other row changes |
| `Outcomes.HeldFailureIsStored` | src/soriham_api/worker.py:512-563 | In every run, an unreached runner sends the row back to the queue with its request and its clock and logs nothing; every other failure ends it in error without them, a changed source noted as such, and logs one failed attempt; artifacts stay |
| `Outcomes.FencedEndsTheJob` | src/soriham_api/worker.py:471-488 | Without the fence the worker is free and no row changes; a result of a recording that is still there is logged as failed |
| `Outcomes.SummaryIsStored` | src/soriham_api/worker.py:589-629 | Title and summary each go to their own field, a title only where there was none, an empty text nowhere; the note of the transcription is carried over, a failure notes its own; of a deleted recording nothing is stored |
| `Outcomes.StoredIsBroughtBack` | src/soriham_api/worker.py:489-511 | In every run a stored transcript is one that a worker of this very recording brought back while it held the request |
| `Attempts.BeginningIsBegun` | src/soriham_api/worker.py:403-413 | In every run, an attempt on a row with a request carries that very id and the instant beside it and issues none; one on a row without gets an id no row and no worker has; what does not fit the quota waits, what has no readable length fails, what lacks only its summary goes to that |
| `Attempts.RunKeepsRequests` | src/soriham_api/worker.py:403-406 | Along any steps a row keeps its request and instant until a holder stores a result or a failure, its file is found to be another, or it is deleted |
| `Attempts.AttemptsShareTheRequest` | src/soriham_api/worker.py:403-406 | So in every run each later attempt has the id and the clock of the first one, whatever crashed, was recovered or sent back in between |
| `Attempts.AllAttemptsInTime` | src/soriham_api/worker.py:454-463 | All attempts together submit nothing later than the first one's start and the limit, plus the time an attempt spends before its call; one that starts past that submits nothing and ends the recording in error |
| `Attempts.LateAttemptIsNoNewOne` | src/soriham_api/worker.py:524-535 | A run in which an unreached runner sends a recording back and the attempt after its hour still has the first one's request and clock |
| `Placing.PlacingChangesOneRow` | src/soriham_api/ingest.py:285-318 | A moved row takes the file's place and measurements and keeps its work, its note and an attempt under way; a new one knows its file and nothing more; no other row changes |
| `Placing.FreePathIsDecided` | src/soriham_api/ingest.py:182-201 | At a free path: a move of the oldest row that has lost this content; else a duplicate of the oldest that has its file in place; else of the oldest unhashed one with this partial hash; else new |
| `Placing.InPlaceMeansContent` | src/soriham_api/ingest.py:34-46 | With honest signatures a row has its file in place exactly when its path is current and the file there has its content |
| `Placing.HeldPathIsDecided` | src/soriham_api/ingest.py:228-283 | At a path with a row: refused for another workspace or the other way in; left alone when the signature is taken for the content; refreshed when the content is the same; refused for an upload with other content; else the row gives way and the file is placed |
| `Placing.RegisteringIsDecided` | src/soriham_api/ingest.py:208-318 | In every run a registration comes to one of these, and a refusal changes nothing |
| `Placing.SecondCopyIsADuplicate` | src/soriham_api/ingest.py:182-193 | In every run a second copy of a file that is registered and in place becomes a duplicate of the oldest such row, and no worker can claim it |
| `Upkeep.MaintenanceTouches` | src/soriham_api/worker.py:95-254 | In every run each maintenance step makes what it should of exactly the rows it is for: stopped ones recovery was told of, failed ones in the workspace asked for, finished ones without a summary, held ones that fit the quota now; every other row stays as it is |
| `Upkeep.DeletingTouches` | src/soriham_api/app.py:369-382 | A deletion takes the row, revives its duplicates, and leaves each row of the history but for its link |
| `Quota.GateInSeconds` | src/soriham_api/quota.py:95-138 | The gate admits exactly an unlimited workspace, a length of zero, or a length that fits the quota together with the usage of the window; an unreadable length is told apart |
| `Quota.UsedSecondsShrinks` | src/soriham_api/quota.py:58-68 | A later window holds no more usage than an earlier one |
| `QuotaBound.UsageWithinQuota` | src/soriham_api/quota.py:95-116 | From books in which each bill was admitted against the ones before it: usage in any later window is at most the quota plus the overrun |
| `QuotaBound.DeclaredWithinQuota` | src/soriham_api/quota.py:95-116 | From the same books: the lengths declared at admission total at most the quota |
| `QuotaBound.ZeroLengthPassesAnExhaustedQuota` | src/soriham_api/quota.py:104-116 | With nothing left, the gate admits a length exactly when it is zero |
| `QuotaBound.StepFits` | src/soriham_api/worker.py:648-671 | Every step of a one-worker run keeps the books, the probed lengths and what the gate found for the job under way |
| `QuotaBound.QuotaHolds` | src/soriham_api/worker.py:648-671 | With one worker and a fixed quota, in every run and for every window that has not ended: declared lengths total at most the quota, and usage exceeds it by at most the overrun |
| `Claim.ClaimInWorkspaceComplete` | src/soriham_api/worker.py:312-328 | The newest unlocked pending recording, else the newest waiting for its summary; nothing exactly when the workspace has no unlocked work |
| `Claim.NewestIsTaken` | src/soriham_api/worker.py:312-328 | In a workspace: of those to be transcribed, else of those waiting for a summary, the one with the latest date, dated before undated, of equal ones the one registered last |
| `Claim.LeadingIsLongestIdle` | src/soriham_api/worker.py:279-291 | A workspace never claimed from comes first, then the one whose last claim is longest ago, of several the one founded first |
| `Claim.Leading` | src/soriham_api/worker.py:279-291 | The open workspace before all others in claim order, none only when none is open |
| `Claim.RoundsHaveAWinner` | src/soriham_api/worker.py:279-298 | The loop takes work of the workspace where a walk over workspaces alone would stop, and puts the same stamps |
| `Claim.LoopFinds` | src/soriham_api/worker.py:279-298 | It stops at the first workspace with work once those ahead of it give way, and stamps exactly them and it |
| `Claim.LoopFindsNothingElse` | src/soriham_api/worker.py:279-298 | After however many rounds it stops at no other |
| `Claim.ClaimFindsExactly` | src/soriham_api/worker.py:257-298 | Whatever the stamps and the clock: a claim takes work exactly when the first workspace with work can be passed to, and then that one's, stamping it and those ahead |
| `Claim.FoundIsWork` | src/soriham_api/worker.py:257-298 | What a claim takes is unlocked work of a workspace it may look into |
| `Claim.ClaimMissesWorkExactly` | src/soriham_api/worker.py:257-298 | Empty although there is work: exactly when one ahead of the first workspace with work does not fall behind it on being stamped |
| `Claim.ClaimIsComplete` | src/soriham_api/worker.py:257-298 | With every stored stamp earlier than now: empty exactly when every eligible workspace is locked (a sole one excepted) or has no unlocked work |
| `Claim.EqualStampMissesWork` | src/soriham_api/worker.py:277-298 | A database that registering two files leads to, a stamp equal to now, and a claim that comes back empty beside free work |
| `Turns.NothingFoundCommitsNothing` | src/soriham_api/worker.py:641-671 | A search that finds nothing leaves no trace; one that finds a recording commits its stamps with the first step of the stage |
| `Turns.FirstInLineIsServed` | src/soriham_api/worker.py:641-671 | With every row free one turn serves the first eligible workspace in line, and its new stamp is committed |
| `Turns.TurnAdvances` | src/soriham_api/worker.py:641-671 | A turn that serves somebody else strictly shrinks the set of workspaces ahead of a waiting one |
| `Turns.BoundedWaiting` | src/soriham_api/worker.py:641-671 | With one worker and a clock that moves on, a workspace that keeps having work is served within as many turns as there are workspaces |
| `Scan.VisitTouches` | src/soriham_api/ingest.py:225-318 | A visit keeps every row's tenant and artifacts, brings rows to the visited path only, and leaves every row whose own file is in place elsewhere |
| `Scan.VisitsAreCounted` | src/soriham_api/ingest.py:395-402 | A scan reports how many files were new, duplicates, back again and moved |
| `Scan.VisitSettles` | src/soriham_api/ingest.py:241-318 | After a visit the path is settled: its current row has the file's content and nothing to refresh, or belongs to another workspace |
| `Scan.VisitKeepsSettled` | src/soriham_api/ingest.py:196-201 | A row that matches its file is never taken for a later file's move |
| `Scan.VisitsSettle` | src/soriham_api/ingest.py:378-411 | After visiting any list of paths, in any order, all of them are settled |
| `Scan.ScanSettles` | src/soriham_api/ingest.py:363-457 | The sweep after the visits unsettles none of them |
| `Scan.ToVisitHolds` | src/soriham_api/ingest.py:378-394 | The paths visited are exactly the files some walk reports inside its own root |
| `Scan.Owner` | src/soriham_api/ingest.py:371-373 | The owner of a path is a scanned root above it and none above it is deeper |
| `Scan.DeviceSeenIsNearest` | src/soriham_api/ingest.py:426-441 | The upward loop sees a device exactly when it is that of the nearest folder still there, looking no higher than the root |
| `Sweeping.ScanMarksExactly` | src/soriham_api/ingest.py:412-455 | After the visits a scan marks as missing exactly the scanned rows of the workspace whose path was not visited, whose deepest root was read to the end, whose device, if on record, is that of the nearest folder still there, and whose root does not look unplugged: no file seen under it and more than twenty gone. Nothing else of them changes, and no other row |
| `Sweeping.ScanCountsExactly` | src/soriham_api/ingest.py:444-456 | It reports how many those are |
| `Sweeping.OutOfReachStays` | src/soriham_api/ingest.py:421-443 | Rows of another workspace, uploads, rows under a root not read to the end and rows whose device is not there keep their status |
| `Renaming.VisitsKeepCatalogue` | src/soriham_api/ingest.py:285-318 | With files of pairwise different content, visits keep rows of pairwise different content free of duplicates, and keep every row's transcript, summary and title |
| `Renaming.RenamingKeepsIdentity` | src/soriham_api/ingest.py:363-457 | After a scan of files renamed, swapped or cycled in any way, each path has a current row with its file's content, and a content that had a row keeps that row with its artifacts |
| `Rescan.VisitsRest` | src/soriham_api/ingest.py:378-411 | Without any condition on uploads: after the visits each path has nothing left to do or is vacant |
| `Rescan.QuietVisits` | src/soriham_api/ingest.py:253-270 | Visiting paths that have nothing to do counts nothing, and takes away the old notes there and nothing else |
| `Rescan.VacancyCounts` | src/soriham_api/ingest.py:285-318 | A vacant path among those visited always shows in the counts |
| `Rescan.NothingLeftToSweep` | src/soriham_api/ingest.py:412-455 | After a sweep, what is still missed was held back by the unplugged-disk rule, and is held back again |
| `Rescan.ScanIsIdempotentIffNoneVacant` | src/soriham_api/ingest.py:363-457 | A second scan of an unchanged file system is all zeros and takes away old notes only, exactly when the first left a current row at every visited path |
| `Rescan.NothingChangesExactly` | src/soriham_api/ingest.py:266-270 | It changes nothing at all exactly when, besides, no visited path has such a note |
| `Rescan.ScanIsIdempotent` | src/soriham_api/ingest.py:363-457 | So it is whenever no upload with other content sits at a scanned path |
| `Folders.StraysWereMoved` | src/soriham_api/ingest.py:196-201 | Over every run with the folders apart: an upload is at a path outside the upload folder, or a scanned row inside, only because a registration moved it across to that path |
| `Folders.ApartScansOnce` | src/soriham_api/ingest.py:363-457 | With the folders apart and no row ever moved out of the upload folder, scanning twice is scanning once in every reachable database, whatever happened to the files |
| `Folders.MovedUploadBreaksIdempotence` | src/soriham_api/ingest.py:285-298 | A run with the folders apart that moves an upload to a scanned path, and files for which the second of two scans registers a recording |
| `Overwritten.StaleUploadsAreTracked` | src/soriham_api/ingest.py:285-298 | At every point of a scan each overwritten upload either is as it was or holds the file of its content, by which visits were not refused |
| `Overwritten.VacantExactly` | src/soriham_api/ingest.py:228-231 | A path is left vacant exactly when an overwritten upload is there whose content turns up at a path visited later, and that visit is not refused |
| `Overwritten.ScanIsIdempotentExactly` | src/soriham_api/ingest.py:363-457 | Read off before the first scan, contents being pairwise different: the second has nothing to do exactly when no visited path is left vacant so |
| `Store.Archive.ClaimNextRecording` | src/soriham_api/worker.py:257-298 | The loop over workspaces computes the claim and the stamps of `Claim.ClaimNext` |
| `Store.Archive.StartNextRecording` | src/soriham_api/worker.py:641-671 | Claim and first commit as one transaction: finding nothing rolls the stamps back, every other path commits them |
| `Store.Archive.BeginStage` | src/soriham_api/worker.py:648-671 | The gate and the first commit of a stage, field by field, are the protocol's begin step |
| `Store.Archive.LongestEnd` | src/soriham_api/worker.py:506-511 | The loop over segments finds the latest end |
| `Store.Archive.StoreReply` | src/soriham_api/worker.py:469-586 | Every way a runner call ends, as the field assignments do it, is the protocol's finish step |
| `Store.Archive.EndSummaryStage` | src/soriham_api/worker.py:589-629 | Likewise for the end of the summary stage |
| `Store.Archive.RecoverInFlight` | src/soriham_api/worker.py:95-117 | The loop over stale rows is the protocol's recovery step |
| `Store.Archive.PickReleasable` | src/soriham_api/worker.py:217-233 | With usage measured once for each workspace, the rows picked are exactly those the per-row gate admits at that instant, each once |
| `Store.PassingPicks` | src/soriham_api/worker.py:221-233 | Asking the gate row by row picks exactly the releasable ones |
| `Store.Archive.ResumeInChunks` | src/soriham_api/worker.py:236-250 | Updating two hundred rows at a time updates each listed row once and no other |
| `Store.Archive.ReleaseQuotaBlocked` | src/soriham_api/worker.py:204-254 | Memo and chunks together free exactly the rows the per-row rule frees, leave all others, and count them |
| `Store.Archive.UnlinkRows` | src/soriham_api/models.py:497-499 | Ledger rows lose their link to the row and nothing else |
| `Store.Archive.DeleteRow` | src/soriham_api/app.py:369-382 | Reviving, deleting and the foreign keys together are the protocol's delete step: nothing refers to the row any more |
| `Store.Archive.PlaceFile` | src/soriham_api/ingest.py:285-318 | Move or new row, field by field, is `Ingest.Place` |
| `Store.Archive.RegisterFile` | src/soriham_api/ingest.py:208-318 | Registering a file in place is `Ingest.IngestFile`, and a refusal changes nothing |
| `Store.Archive.VisitRoot` | src/soriham_api/ingest.py:378-405 | One root's loop visits the paths inside it not seen before, in order |
| `Store.Archive.ScanAll` | src/soriham_api/ingest.py:363-457 | The whole scan is `Scan.ScanFolders`, counts included |
| `Runner.PollUntilDone` | src/soriham_api/stt_client.py:129-177 | The polling loop ends and returns what the recursive description says |
| `Runner.WaitExplained` | src/soriham_api/stt_client.py:129-177 | The wait ends on the first decisive answer or failing progress hook, gives the runner up exactly when six polls in a row failed, and times out only past the deadline |
| `Runner.SubmitAndWait` | src/soriham_api/stt_client.py:201-213 | One submission and its wait: refusal, fault, another id or the outcome of the wait |
| `Runner.Transcribe` | src/soriham_api/stt_client.py:179-214 | The resubmission loop returns what the recursive description says, every submission time included |
| `Runner.CallInTime` | src/soriham_api/stt_client.py:196-214 | At most two resubmissions, each before the deadline; none at all exactly when the deadline has passed; lost only after the last |
| `Runner.SubmittedInTime` | src/soriham_api/worker.py:454-463 | Over all attempts under a request id, no submission later than the limit after the id was made, plus the time between an attempt's start and its call |
| `Runner.DeadlineInEveryRun` | src/soriham_api/worker.py:403-463 | The same for every attempt of every run, counted from the instant its request id was made |
| `Runner.DeadlineExactlyWithoutDelay` | src/soriham_api/worker.py:454-463 | The bound without that addition holds for every runner exactly when no such time passes or the limit is already past |
| `Runner.PastTheDeadlineEndsInError` | src/soriham_api/worker.py:536-550 | An attempt that starts past the limit submits nothing and ends the recording in error without its request id |
| `Calls.CallIsDecided` | src/soriham_api/stt_client.py:77-114 | The answer to the last submission decides a whole call: runner down gives it up, refusal or a foreign id fails the job, and only a job taken under the id asked for is decided by the polls or the time; each earlier one was taken and found forgotten before the next was submitted |
| `Calls.ResultsAreFinished` | src/soriham_api/stt_client.py:129-214 | A result comes only from a poll that finished, after a submission taken under the id asked for |
| `Calls.SubmissionDecides` | src/soriham_api/stt_client.py:102-114 | So with the runner down the recording waits under the same request with nothing logged, and a file that is turned down ends in error without its request |
| `Calls.OutcomeDecides` | src/soriham_api/worker.py:512-563 | Only a runner that is given up sends the recording back to the queue; a result is stored, and everything else ends it in error |
| `Calls.NoPollAfterTheDeadline` | src/soriham_api/stt_client.py:143-178 | No poll starts after the deadline, and a timeout comes within one poll and one pause of it |
| `Limiter.StartOf` | src/soriham_api/ratelimit.py:31-35 | The multiple of the window length whose window holds the instant |
| `Limiter.Attempts.Hit` | src/soriham_api/ratelimit.py:62-78 | One more in the row of the key's current window, and the new count |
| `Limiter.Attempts.Guard` | src/soriham_api/ratelimit.py:90-102 | All axes are counted even when one is over, each at the instant it reads itself |
| `Limiter.Attempts.GuardAttempts` | src/soriham_api/deps.py:194-208 | An admitted try is committed, a refused one leaves the table as it was |
| `Limiter.ClearingStartsAfresh` | src/soriham_api/ratelimit.py:81-87 | After clearing, the key counts zero in every window and has its whole allowance again; other keys are unchanged |
| `Limiter.SweepingKeepsLiveRows` | src/soriham_api/ratelimit.py:105-109 | Sweeping leaves the counts of live windows and zeroes the others, so it takes no row a later try looks at |
| `Limiter.CountIsAdmissions` | src/soriham_api/ratelimit.py:62-78 | In every run the row of a live window is the number of admitted tries since the key was last cleared |
| `Limiter.RefusedExactly` | src/soriham_api/ratelimit.py:90-102 | A try is refused exactly when some axis of it, those before it counted in, goes over what it allows |
| `Limiter.WindowNeverExceedsLimit` | src/soriham_api/ratelimit.py:90-102 | No window admits more than the limit, also when a try lies astride two windows |
| `Limiter.TwiceTheLimit` | src/soriham_api/ratelimit.py:31-35 | No interval of one window length admits more than twice the limit |
| `Limiter.SweepingDecidesNothing` | src/soriham_api/ratelimit.py:105-109 | Every later try is decided as if nothing had been swept |
| `Media.ResolvesAsStandard` | src/soriham_api/media.py:71-88 | A single range `a-b`, `a-` or `-n` of plain digits resolves to what section 14.1.2 of RFC 9110 selects, unless a number has more digits than `int()` takes and is refused |
| `Media.SpellingSpells` | src/soriham_api/media.py:73-81 | Every range of the three forms has a spelling, so each can be asked for |
| `Media.AcceptsWhatItReads` | src/soriham_api/media.py:71-88 | Any text is accepted with a slice exactly when the parts around its first dash are read by `int()` as one of the three forms and it selects that slice |
| `Media.DashlessReadsOn` | src/soriham_api/media.py:73-78 | A text without a dash spells no form and is resolved as if one followed |
| `Media.AcceptedUnspelledExactly` | src/soriham_api/media.py:71-88 | An accepted text spells no form exactly when it has no dash, or a non-empty part before or after the first that is not plain digits; with several dashes it selects the first byte only |
| `Media.SignIsAccepted` | src/soriham_api/media.py:77-81 | `+5-10` spells no form and is served bytes 5 to 10 |
| `Media.AcceptedRangeIsInside` | src/soriham_api/media.py:83-88 | An accepted range is not empty and lies inside the file |
| `Media.Stream` | src/soriham_api/media.py:108-130 | What is sent is a prefix of the registered slice however the file is rewritten, and all of it when the file keeps its signature or was only touched |
| `Watch.Handler.OnEvent` | src/soriham_api/watch.py:52-68 | Noting an event is the model's step: registered and pending states of the file are not noted again |
| `Watch.Handler.OnDeleted` | src/soriham_api/watch.py:46-50 | Forgetting a file drops its entry and its registered state |
| `Watch.Handler.TakeReady` | src/soriham_api/watch.py:70-73 | A pass takes exactly the entries that are due, each once |
| `Watch.Handler.Retry` | src/soriham_api/watch.py:103-106 | A new due time only while the very entry is still pending |
| `Watch.Handler.Finish` | src/soriham_api/watch.py:74-101 | However handling one file ends, the maps change as the model's step says |
| `Watch.NotingMakesPending` | src/soriham_api/watch.py:52-68 | A state of a file that is neither registered nor pending becomes pending, due when it has been quiet; other events change nothing, and no other file is touched |
| `Watch.PassesTakeWhatIsDue` | src/soriham_api/watch.py:70-73 | A pass works through exactly what is pending and due when it starts, each file once |
| `Watch.HandlingDoes` | src/soriham_api/watch.py:74-106 | An entry still pending goes when its file is saved or gone and starts a new quiet time otherwise; a newer one stays; the file counts as registered in that state exactly if that is what was saved |
| `Watch.AlwaysAccounted` | src/soriham_api/watch.py:34-106 | In every interleaving of the two threads the newest entry of a path is pending or was itself taken away |
| `Watch.NoNewerEntryIsLost` | src/soriham_api/watch.py:89-94 | An entry leaves only by being forgotten, giving way to a newer one, or being the one handled |
| `Watch.FailureOnlyPostpones` | src/soriham_api/watch.py:99-106 | A failure puts the file off by the quiet time and touches no other file |
| `Watch.PickedUpOnlyWhenQuiet` | src/soriham_api/watch.py:70-73 | Every entry a pass picks up is at least five seconds old |
| `Names.UniquePath` | src/soriham_api/uploads.py:123-133 | The search ends within one try more than there are taken names, on a free name all of whose predecessors are taken |
| `Names.DecimalIsInjective` | src/soriham_api/uploads.py:131 | Different numbers are written differently |
| `Names.CandidatesDiffer` | src/soriham_api/uploads.py:123-133 | No two names of the sequence are equal, the unnumbered one included |
| `Names.ShortenedFits` | src/soriham_api/uploads.py:112-120 | A name that fits stays; a shortened one fits the limit in bytes, keeps an ordinary suffix whole, starts as the original, and loses no character it had room for |
| `Tenancy.AlwaysKept` | src/soriham_api/tenancy.py:192-594 | In every run: invites are used at most as often as allowed and make no owner, a workspace has at most one owner, and a default workspace is one the user belongs to |
| `Members.StepMovesMembers` | src/soriham_api/tenancy.py:192-594 | Over every step: a membership is gained by founding or by an invite and with its role, lost by removal or with a dropped workspace and never an owner's, and its role changes by request for those who are not owners; in no other way |
| `Members.AcceptingJoins` | src/soriham_api/tenancy.py:438-453 | An invite that is live and for this user gives its role to those who are not members yet and is used up by one for it; the terms of invites and the roles of members stay |
| `Members.ClaimingJoins` | src/soriham_api/tenancy.py:364-378 | Claiming gets the user into exactly the workspaces a live invite for the address is listed for, with the role of the first such, and changes nobody else's membership |
| `Members.SigningUpMakes` | src/soriham_api/tenancy.py:192-237 | A sign-up makes the account with its address and a personal workspace of its own as default, and claims reserved invites exactly if approved |
| `Members.ApprovingMakes` | src/soriham_api/tenancy.py:239-290 | An approval gives a home and claims the invites reserved for the address |
| `Members.HomingMakes` | src/soriham_api/tenancy.py:261-290 | Without any membership a personal workspace is made; without a default one of the memberships becomes it; nothing else changes |
| `Members.FoundingMakes` | src/soriham_api/tenancy.py:103-121 | A new workspace has its founder as owner and only member, and becomes their default only if asked |
| `Members.RejectingDrops` | src/soriham_api/tenancy.py:308-340 | A rejection drops exactly the user's empty personal workspaces with their memberships and invites, and nobody's default leads there any more |
| `Members.RemovingRevokes` | src/soriham_api/tenancy.py:535-563 | A removal revokes exactly the invites there for that address, and changes the default exactly if it was this workspace |
| `Members.InvitingMoves` | src/soriham_api/tenancy.py:401-435 | An invite is issued as asked exactly if its terms are lawful; revoking marks it and changes nothing else |
| `Tenancy.OwnersAreOutOfReach` | src/soriham_api/tenancy.py:513-563 | Issuing, revoking or accepting an invite, changing a role and removing a member leave the set of owners |
| `Tenancy.ClaimingKeepsOwners` | src/soriham_api/tenancy.py:364-378 | So does claiming reserved invites |
| `Tenancy.RedeemedPairs` | src/soriham_api/tenancy.py:381-392 | Redeeming an invite adds as many memberships as it adds uses |
| `Tenancy.UsesPairWithMemberships` | src/soriham_api/tenancy.py:364-378 | Over all invites claimed at once, several for one workspace included, uses added are memberships gained |
| `Tenancy.ApprovalGivesAHome` | src/soriham_api/tenancy.py:239-290 | In every run an approved user has a default workspace and belongs to it, also after a rejection dropped the old one |
| `Tenancy.AcceptingGivesAHome` | src/soriham_api/routes_workspaces.py:187-200 | Whoever takes an invite is a member and has a default workspace; a default that was set stays, and a member uses nothing up |
| `Tenancy.RemovedGetsInExactly` | src/soriham_api/tenancy.py:535-563 | Over any sequence of steps that issues no invite for that address, a removed member is in again at some point exactly when they take an open invite at some point |
| `Tenancy.WorkspacesMove` | src/soriham_api/tenancy.py:308-340 | A workspace disappears by a rejection that may drop it and in no other way |
| `Estate.PeopleKeepHistory` | src/soriham_api/tenancy.py:327-338 | No step of the tenants touches a workspace that has recordings or history, as counted from the tables |
| `Estate.NextIsSound` | src/soriham_api/models.py:494-499 | Every step of either side keeps invariants and foreign keys, and is a step of the archive's protocol or none |
| `Estate.ArchiveRunsItsProtocol` | src/soriham_api/worker.py:80-682 | Whatever the tenants do meanwhile, the archive goes through a run of its protocol, so all that is proved of those runs holds |
| `Estate.UsageCannotBeReset` | src/soriham_api/tenancy.py:308-340 | At a fixed instant usage never falls under any sequence of deletes, replacements, rejections, approvals, invites and removals |
| `Estate.WorkspaceIsGoneExactly` | src/soriham_api/tenancy.py:308-340 | Along a run a workspace is gone exactly when some rejection found it droppable |
| `Estate.JobIsThereExactly` | src/soriham_api/worker.py:417-449 | Along any steps of others and reports of its own a worker keeps its job, exactly until it reports on a recording that is gone |
| `Estate.ChargedExactly` | src/soriham_api/worker.py:471-511 | Over every run, what a result adds to usage: with the fence the larger of the recording's length and the last segment's end; for a deleted recording the length declared, if its workspace stands and no report fell since the deletion; otherwise, and for every other workspace, nothing |
| `Estate.DeletedIsChargedAsDeclared` | src/soriham_api/worker.py:341-373 | A run in which the recording is deleted and the result is charged as the minute declared, whatever was heard |
| `Estate.DeletedAndReportedLosesTheCharge` | src/soriham_api/worker.py:376-449 | The same run with one report after the deletion: nothing is charged, and the workspace stands |
| `Estate.DeletedAndRejectedLosesTheCharge` | src/soriham_api/tenancy.py:322-338 | The same run with a rejection after the deletion: the workspace is dropped and nothing is charged |
| `Shares.ClaimingIsPointwiseMaximum` | src/soriham_api/tenancy.py:343-362 | On every recording the user may afterwards do exactly the more of what was shared directly and what was reserved |
| `Shares.NothingStaysReserved` | src/soriham_api/tenancy.py:343-362 | No share stays reserved for the address |
| `Shares.OthersUntouched` | src/soriham_api/tenancy.py:343-362 | What anybody else may do is unchanged |
| `Shares.ClaimingKeepsOneEach` | src/soriham_api/models.py:216-250 | Each recording still has at most one share for the user |
| `Roster.Directory.JoinWorkspace` | src/soriham_api/tenancy.py:381-392 | Joins exactly those who are not members yet |
| `Roster.Directory.ClaimShare` | src/soriham_api/tenancy.py:348-362 | One reserved row is handed over, or merged into the user's own row of that recording |
| `Roster.Directory.ClaimShares` | src/soriham_api/tenancy.py:345-362 | The loop, in whatever order the rows come, gives the table `Shares.Claimed` describes |
| `Roster.Directory.Redeem` | src/soriham_api/tenancy.py:448-452 | A use is counted exactly when a member was gained |
| `Roster.Directory.ClaimInvites` | src/soriham_api/tenancy.py:364-378 | The loop over reserved invites is the model's, and its count is the memberships gained |
| `Roster.Directory.ClaimPending` | src/soriham_api/tenancy.py:343-378 | Shares and invites together, with the number of shares that were reserved and of memberships gained |
| `Roster.Directory.AcceptInvite` | src/soriham_api/tenancy.py:438-453 | Taken exactly when the invite is live and not for somebody else; members do not use it up |
| `Roster.Directory.CreateInvite` | src/soriham_api/tenancy.py:401-435 | Issued exactly for a role below owner, a lawful expiry and at least one use, and then new and unused |
| `Roster.Directory.EnsureHomeWorkspace` | src/soriham_api/tenancy.py:261-290 | A personal workspace is made exactly for those who belong to none; the others get a default if they lack one |
| `Roster.Directory.SetMemberRole` | src/soriham_api/tenancy.py:513-532 | The role changes exactly for members who are not the owner and not to owner, and each refusal has its own reason |
| `Roster.Directory.RemoveMember` | src/soriham_api/tenancy.py:535-563 | Removal, revocation of the invites for that address and the new default are the model's step; owner and stranger are refused |
| `Roster.Directory.DeleteWorkspace` | src/soriham_api/tenancy.py:337 | The cascade of one workspace |
| `Roster.Directory.IsBusy` | src/soriham_api/tenancy.py:326-333 | The two counts tell exactly whether the workspace has recordings or history |
| `Roster.Directory.DropIfEmpty` | src/soriham_api/tenancy.py:319-338 | Dropped exactly when personal, with no other member, no recordings and no history |
| `Roster.Directory.DropEmptyPersonalWorkspaces` | src/soriham_api/tenancy.py:308-340 | The loop drops exactly the user's droppable workspaces and counts them |

## Left out

- HTTP routing, cookies, schemas, permissions, sessions, search, statistics, migrations, settings and logging: no deep invariant.
- Password hashing, tokens, ffprobe, the summariser and the HTTP transport: foreign calls, each an arbitrary outcome.
- Progress percentages, heartbeats and stage times: for display; staleness of a heartbeat is an arbitrary set of rows. That a
  report commits at all is modelled, as the update of a row that may be gone.
- The storage quota and `check_storage`: one comparison.
- Finer interleavings inside recovery, retry, release and registration: each is one step here, as the locks and
  transactions of the program intend; recovery reads and writes without row locks.
- The summary stage is not fenced in the program, so a summary may run twice; nothing is claimed about how often.
- Runner.PollUntilDone: a wait without a deadline is not modelled, because the worker always sets one.
- Store.Archive.ScanAll: marks what is gone in one update, where the program goes root by root and two hundred rows at a time.
- Store.Archive.PickReleasable: `session.get` of a workspace and its usage is one lookup in a map of quotas.
- Claim.ClaimFindsExactly: choosing and locking a workspace is one step; the program notes that a lock taken meanwhile can make the order it
  chose by stale, which costs fairness and nothing else.
- Rescan.ScanIsIdempotent: files that vanish between the walk and the visit are not modelled, because the file system is unchanged.
- Limiter.CountIsAdmissions: both limits of the program share one window length, which is fixed here; tries of several
  processes at once are taken one after another.
- Store.Archive.StoreReply: takes the workspace to exist; `Estate` has the case that it does not.
- Overwritten.ScanIsIdempotentExactly: is about rows and files of pairwise different content; without that the exact
  condition is the one of `Rescan.ScanIsIdempotentIffNoneVacant`.
- Safety.FinishKeeps: the ledger row of a failed stage is committed just before the recording's own row; the two are one
  step here.
- Media.Stream: a read and the stat after it see the same version of the file.
- Media.AcceptsWhatItReads: `int()` is any reader that refuses the empty text, reads plain digits as their value unless
  there are more than 4300 of them, and reads a negative number only off a dash; several ranges in one header, and the
  trimming of the unit, are not modelled.
- Names.UniquePath: the names taken are a fixed finite set; the directory part of the path is constant and left out.
- Names.ShortenedFits: a name comes as its stem and suffix; how pathlib splits it is not modelled.
- Tenancy.AlwaysKept: checks of addresses and slugs, account states and the first operator's set-up are not modelled.
- Writing the staged upload file, cleaning up staging, tags, titles edited by hand, speakers and share links.
