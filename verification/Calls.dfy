/** What a whole call of the runner comes to: the answer to its last submission decides it, and so what becomes of the
    recording. */
module Calls {
  import opened Records
  import opened Quota
  import opened Protocol
  import opened Runner

  /** The runner could not be reached or is at fault itself: nothing is said about the file. */
  predicate RunnerDown(answer: SubmitAnswer) {
    answer.Unreached? || answer.ServerFault?
  }

  /** The runner will not have this file, or does not work under the id it was asked to. */
  predicate TurnedDown(answer: SubmitAnswer) {
    answer.Refused? || answer == Accepted(false)
  }

  /** The poll that ended the call, and how. */
  predicate EndsOn(world: World, outcome: WaitOutcome, p: nat) {
    match world.polls(p).answer
    case Finished(segments, meta, diarizeFailed) => outcome == Result(segments, meta, diarizeFailed)
    case NotFound => outcome == Lost
    case Rejected => outcome == JobFailed
    case JobError => outcome == JobFailed
    case Running(hookFails) => hookFails && outcome == Interrupted
    case _ => outcome == Unavailable
  }

  /** What the answer to the last submission makes of the call. Once the job is taken under the id asked for, the polls
      decide, or the time is up. */
  ghost predicate DecidedBy(world: World, answer: SubmitAnswer, outcome: WaitOutcome) {
    if RunnerDown(answer) then outcome == Unavailable
    else if TurnedDown(answer) then outcome == JobFailed
    else outcome == OutOfTime || exists p :: EndsOn(world, outcome, p)
  }

  lemma {:induction false} WaitEndsOnAPoll(world: World, i: nat, errors: nat, now: real, deadline: real,
        interval: Interval)
    ensures var w := WaitFrom(world, i, errors, now, deadline, interval);
            w.outcome == OutOfTime || (w.polls > i && EndsOn(world, w.outcome, w.polls - 1))
    decreases Rounds(now, deadline, interval)
  {
    if now <= deadline {
      var poll := world.polls(i);
      var after := now + poll.took;
      RoundsFall(now, after + interval, deadline, interval);
      if poll.answer == Running(false) {
        WaitEndsOnAPoll(world, i + 1, 0, after + interval, deadline, interval);
      } else if Faulty(poll.answer) && errors + 1 <= MAX_POLL_ERRORS {
        WaitEndsOnAPoll(world, i + 1, errors + 1, after + interval, deadline, interval);
      }
    }
  }

  /** The loop makes no poll after the deadline. It ends as soon as something is decided, and after the deadline only
      when nothing was: by then no more than the last poll and the pause after it have gone by. */
  lemma {:induction false} NoPollAfterTheDeadline(world: World, i: nat, errors: nat, now: real, deadline: real,
        interval: Interval)
    ensures var w := WaitFrom(world, i, errors, now, deadline, interval);
            if w.polls <= i then w.polls == i && w.outcome == OutOfTime && w.end == now > deadline
            else
              var took := world.polls(w.polls - 1).took;
              if w.outcome == OutOfTime then w.end > deadline >= w.end - interval - took else w.end - took <= deadline
    decreases Rounds(now, deadline, interval)
  {
    if now <= deadline {
      var poll := world.polls(i);
      var after := now + poll.took;
      RoundsFall(now, after + interval, deadline, interval);
      if poll.answer == Running(false) {
        NoPollAfterTheDeadline(world, i + 1, 0, after + interval, deadline, interval);
      } else if Faulty(poll.answer) && errors + 1 <= MAX_POLL_ERRORS {
        NoPollAfterTheDeadline(world, i + 1, errors + 1, after + interval, deadline, interval);
      }
    }
  }

  /** These are the instants of successive submissions: the first is made at once, and each further one when the wait
      for the job before it has found it forgotten. */
  predicate InTurn(world: World, attempt: nat, polls: nat, now: real, deadline: real, interval: Interval,
        submissions: seq<real>)
    decreases |submissions|
  {
    submissions != [] ==>
      && submissions[0] == now
      && (|submissions| > 1 ==>
            && world.submits(attempt).answer == Accepted(true)
            && var w := Wait(world, polls, now + world.submits(attempt).took, deadline, interval);
               w.outcome == Lost && InTurn(world, attempt + 1, w.polls, w.end, deadline, interval, submissions[1..]))
  }

  lemma {:induction false} SubmittedInTurn(world: World, attempt: nat, polls: nat, now: real, deadline: real,
        interval: Interval, maxResubmits: nat)
    requires attempt <= maxResubmits
    ensures InTurn(world, attempt, polls, now, deadline, interval,
                   CallFrom(world, attempt, polls, now, deadline, interval, maxResubmits).submissions)
    decreases maxResubmits - attempt
  {
    if now < deadline {
      var w := Once(world, attempt, polls, now, deadline, interval);
      if w.outcome.Lost? && attempt < maxResubmits {
        SubmittedInTurn(world, attempt + 1, w.polls, w.end, deadline, interval, maxResubmits);
        var more := CallFrom(world, attempt + 1, w.polls, w.end, deadline, interval, maxResubmits).submissions;
        assert ([now] + more)[1..] == more;
      }
    }
  }

  /** From the `attempt`-th submission on, with the job forgotten up to the last one. */
  lemma {:induction false} CallFromIsDecided(world: World, attempt: nat, polls: nat, now: real, deadline: real,
        interval: Interval, maxResubmits: nat)
    requires attempt <= maxResubmits
    ensures var c := CallFrom(world, attempt, polls, now, deadline, interval, maxResubmits);
            if c.submissions == [] then now >= deadline && c.outcome == OutOfTime
            else
              var last := attempt + |c.submissions| - 1;
              && now < deadline && c.submissions[0] == now
              && (forall k | attempt <= k < last :: world.submits(k).answer == Accepted(true))
              && DecidedBy(world, world.submits(last).answer, c.outcome)
    decreases maxResubmits - attempt
  {
    if now < deadline {
      var w := Once(world, attempt, polls, now, deadline, interval);
      var answer := world.submits(attempt).answer;
      if answer == Accepted(true) {
        WaitEndsOnAPoll(world, polls, 0, now + world.submits(attempt).took, deadline, interval);
      }
      if w.outcome.Lost? && attempt < maxResubmits {
        CallFromIsDecided(world, attempt + 1, w.polls, w.end, deadline, interval, maxResubmits);
      }
    }
  }

  /** The whole call: nothing is submitted exactly when its time is already up. Otherwise all submissions but the last
      were taken and their jobs forgotten, and the answer to the last one decides. */
  lemma CallIsDecided(world: World, now: real, timeout: real, interval: Interval, maxResubmits: nat)
    ensures var c := Call(world, now, timeout, interval, maxResubmits);
            var last := |c.submissions| - 1;
            && (c.submissions == [] <==> timeout <= 0.0)
            && (c.submissions == [] ==> c.outcome == OutOfTime)
            && (forall k: nat | k < last :: world.submits(k).answer == Accepted(true))
            && (c.submissions != [] ==> DecidedBy(world, world.submits(last).answer, c.outcome))
            && InTurn(world, 0, 0, now, now + timeout, interval, c.submissions)
  {
    SubmittedInTurn(world, 0, 0, now, now + timeout, interval, maxResubmits);
    CallFromIsDecided(world, 0, 0, now, now + timeout, interval, maxResubmits);
  }

  /** A transcript comes only from a poll that finished, after a submission taken under the id asked for. */
  lemma ResultsAreFinished(world: World, now: real, timeout: real, interval: Interval, maxResubmits: nat)
    ensures var c := Call(world, now, timeout, interval, maxResubmits);
            c.outcome.Result? ==>
              && c.submissions != []
              && world.submits(|c.submissions| - 1).answer == Accepted(true)
              && exists p: nat ::
                   world.polls(p).answer == Finished(c.outcome.segments, c.outcome.meta, c.outcome.diarizeFailed)
  {
    CallIsDecided(world, now, timeout, interval, maxResubmits);
    var c := Call(world, now, timeout, interval, maxResubmits);
    if c.outcome.Result? {
      var p :| EndsOn(world, c.outcome, p);
      assert world.polls(p).answer == Finished(c.outcome.segments, c.outcome.meta, c.outcome.diarizeFailed);
    }
  }

  /* ---------- what becomes of the recording ---------- */

  /** For a worker that still holds the request: only a runner that is given up sends it back to the queue. A result is
      stored, and everything else, the time being up included, ends it in error. */
  lemma OutcomeDecides(db: Db, job: Job, outcome: WaitOutcome)
    requires Holds(db, job)
    ensures var after := FinishJob(db, job, ReplyOf(outcome)).0;
            && job.recording in after.recordings
            && var r := after.recordings[job.recording];
            match outcome
            case Result(segments, meta, diarizeFailed) =>
              && r.status == Summarizing && r.segments == segments && r.sttMeta == Some(meta)
              && (r.error == DiarizeFailed <==> diarizeFailed)
            case Unavailable => r.status == Pending && r.requestId == Some(job.token)
            case _ => r.status == Failed && r.requestId.None?
  {
  }

  /** For a worker that still holds the request. With the runner down the recording waits for another attempt under the
      same request, and nothing is logged: the queue outlives the runner. A file that is turned down ends in error
      without its request, and is not tried for ever. */
  lemma SubmissionDecides(world: World, db: Db, job: Job, callAt: real, interval: Interval)
    requires Holds(db, job)
    ensures var c := WorkerCall(world, job, callAt, interval);
            var before := db.recordings[job.recording];
            var after := FinishJob(db, job, ReplyOf(c.outcome)).0;
            c.submissions != [] && job.recording in after.recordings ==>
              var answer, r := world.submits(|c.submissions| - 1).answer, after.recordings[job.recording];
              && (RunnerDown(answer) ==>
                    && r.status == Pending && Claimable(r)
                    && r.requestId == Some(job.token) && r.runnerStartedAt == before.runnerStartedAt
                    && after.ledger == db.ledger)
              && (TurnedDown(answer) ==>
                    && r.status == Failed && r.error == OtherError
                    && r.requestId.None? && r.runnerStartedAt.None?)
    ensures job.recording in FinishJob(db, job, ReplyOf(WorkerCall(world, job, callAt, interval).outcome)).0.recordings
  {
    CallIsDecided(world, callAt, job.limit - (job.started - job.base), interval, MAX_RESUBMITS);
  }
}
