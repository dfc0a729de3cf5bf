/** The client of the transcription runner: submit, poll, resubmit a forgotten job, give up in time. */
module Runner {
  import opened Records
  import opened Protocol
  import Safety
  import Guarantees

  /** While the job runs each poll hands its progress to the caller, whose commit may fail. */
  datatype PollAnswer =
    | Running(hookFails: bool) | Finished(segments: seq<Segment>, meta: string, diarizeFailed: bool) | JobError
    | NotFound | Rejected | RunnerFault | NoTransport

  datatype SubmitAnswer = Accepted(sameId: bool) | Refused | ServerFault | Unreached

  datatype Poll = Poll(answer: PollAnswer, took: Seconds)

  datatype Submission = Submission(answer: SubmitAnswer, took: Seconds)

  /** How the runner answers the n-th submission and the n-th poll of a call, and how long each takes. */
  datatype World = World(submits: nat -> Submission, polls: nat -> Poll)

  datatype WaitOutcome =
    | Result(segments: seq<Segment>, meta: string, diarizeFailed: bool) | Lost | JobFailed | Interrupted | Unavailable
    | OutOfTime

  datatype Waited = Waited(outcome: WaitOutcome, polls: nat, end: real)

  type Interval = s: real | s > 0.0 witness 3.0

  const MAX_POLL_ERRORS: nat := 5

  predicate Faulty(answer: PollAnswer) {
    answer.RunnerFault? || answer.NoTransport?
  }

  lemma ScaledBelow(x: real, y: real, d: real)
    requires x < y && d > 0.0
    ensures x * d < y * d
  {
  }

  function Quotient(x: real, d: real): (q: real)
    requires d > 0.0
    ensures q * d == x
  {
    x / d
  }

  lemma SignOfProduct(q: real, d: real, x: real)
    requires d > 0.0 && q * d == x
    ensures x >= 0.0 <==> q >= 0.0
  {
  }

  lemma ProductsApart(a: real, b: real, d: real, x: real, y: real)
    requires d > 0.0 && a * d == x && b * d == y && x + d <= y
    ensures a + 1.0 <= b
  {
    if b < a + 1.0 {
      ScaledBelow(b, a + 1.0, d);
    }
  }

  /** How many whole intervals fit. */
  function Intervals(x: real, d: real): nat
    requires x >= 0.0 && d > 0.0
  {
    SignOfProduct(Quotient(x, d), d, x);
    Quotient(x, d).Floor
  }

  lemma OneIntervalLess(x: real, y: real, d: real)
    requires 0.0 <= x && x + d <= y && d > 0.0
    ensures Intervals(x, d) < Intervals(y, d)
  {
    ProductsApart(Quotient(x, d), Quotient(y, d), d, x, y);
    FloorsApart(Quotient(x, d), Quotient(y, d));
  }

  lemma FloorsApart(a: real, b: real)
    requires a + 1.0 <= b
    ensures a.Floor < b.Floor
  {
    assert (a.Floor + 1) as real <= b;
  }

  /** A bound on the polls left before the deadline. */
  function Rounds(now: real, deadline: real, interval: Interval): nat {
    if now > deadline then 0 else Intervals(deadline - now, interval) + 1
  }

  lemma RoundsFall(now: real, later: real, deadline: real, interval: Interval)
    requires now <= deadline && later >= now + interval
    ensures Rounds(later, deadline, interval) < Rounds(now, deadline, interval)
  {
    if later <= deadline {
      OneIntervalLess(deadline - later, deadline - now, interval);
    }
  }

  /** The polling loop from its `errors`-th consecutive failure on. */
  function WaitFrom(world: World, i: nat, errors: nat, now: real, deadline: real, interval: Interval): Waited
    decreases Rounds(now, deadline, interval)
  {
    if now > deadline then Waited(OutOfTime, i, now)
    else
      var Poll(answer, took) := world.polls(i);
      var after := now + took;
      match answer
      case NotFound => Waited(Lost, i + 1, after)
      case Rejected => Waited(JobFailed, i + 1, after)
      case JobError => Waited(JobFailed, i + 1, after)
      case Finished(segments, meta, diarizeFailed) => Waited(Result(segments, meta, diarizeFailed), i + 1, after)
      case Running(hookFails) =>
        if hookFails then Waited(Interrupted, i + 1, after)
        else
          RoundsFall(now, after + interval, deadline, interval);
          WaitFrom(world, i + 1, 0, after + interval, deadline, interval)
      case _ =>
        if errors + 1 > MAX_POLL_ERRORS then Waited(Unavailable, i + 1, after)
        else
          RoundsFall(now, after + interval, deadline, interval);
          WaitFrom(world, i + 1, errors + 1, after + interval, deadline, interval)
  }

  function Wait(world: World, first: nat, now: real, deadline: real, interval: Interval): Waited {
    WaitFrom(world, first, 0, now, deadline, interval)
  }

  method PollUntilDone(world: World, first: nat, start: real, deadline: real, interval: Interval) returns (w: Waited)
    ensures w == Wait(world, first, start, deadline, interval)
  {
    var i, errors, now := first, 0, start;
    while true
      invariant errors <= MAX_POLL_ERRORS
      invariant WaitFrom(world, i, errors, now, deadline, interval) == Wait(world, first, start, deadline, interval)
      decreases Rounds(now, deadline, interval)
    {
      if now > deadline {
        return Waited(OutOfTime, i, now);
      }
      var poll := world.polls(i);
      var after := now + poll.took;
      RoundsFall(now, after + interval, deadline, interval);
      match poll.answer {
        case NotFound => return Waited(Lost, i + 1, after);
        case Rejected => return Waited(JobFailed, i + 1, after);
        case JobError => return Waited(JobFailed, i + 1, after);
        case Finished(segments, meta, diarizeFailed) =>
          return Waited(Result(segments, meta, diarizeFailed), i + 1, after);
        case Running(hookFails) =>
          if hookFails {
            return Waited(Interrupted, i + 1, after);
          }
          errors := 0;
        case _ =>
          errors := errors + 1;
          if errors > MAX_POLL_ERRORS {
            return Waited(Unavailable, i + 1, after);
          }
      }
      i, now := i + 1, after + interval;
    }
  }

  predicate FaultsAt(world: World, lo: int, hi: int) {
    forall k: nat | lo <= k < hi :: Faulty(world.polls(k).answer)
  }

  predicate SixFaults(world: World, k: nat) {
    FaultsAt(world, k, k + 6)
  }

  predicate Undecided(answer: PollAnswer) {
    answer == Running(false) || Faulty(answer)
  }

  /** The answer that ended the wait is the first decisive one, and the wait gives the runner up exactly
      when six polls in a row have failed. */
  ghost predicate Explained(world: World, first: nat, w: Waited, deadline: real) {
    && first <= w.polls
    && (forall k: nat | first <= k < w.polls - 1 :: Undecided(world.polls(k).answer))
    && (forall k: nat | first <= k && k + 6 <= w.polls && SixFaults(world, k) ::
          w.outcome.Unavailable? && k + 6 == w.polls)
    && match w.outcome
       case OutOfTime => w.end > deadline && (w.polls > first ==> Undecided(world.polls(w.polls - 1).answer))
       case Unavailable => first + 6 <= w.polls && FaultsAt(world, w.polls - 6, w.polls)
       case Lost => first < w.polls && world.polls(w.polls - 1).answer.NotFound?
       case JobFailed => first < w.polls && (world.polls(w.polls - 1).answer.Rejected?
             || world.polls(w.polls - 1).answer.JobError?)
       case Interrupted => first < w.polls && world.polls(w.polls - 1).answer == Running(true)
       case Result(segments, meta, diarizeFailed) =>
         first < w.polls && world.polls(w.polls - 1).answer == Finished(segments, meta, diarizeFailed)
  }

  /** Where the loop stands before its `i`-th poll: nothing decided, and exactly the last `errors` polls failed. */
  ghost predicate Waiting(world: World, first: nat, i: nat, errors: nat) {
    && errors <= MAX_POLL_ERRORS && first + errors <= i
    && FaultsAt(world, i - errors, i)
    && (i - errors > first ==> !Faulty(world.polls(i - errors - 1).answer))
    && (forall k: nat | first <= k < i :: Undecided(world.polls(k).answer))
    && (forall k: nat | first <= k && k + 6 <= i :: !SixFaults(world, k))
  }

  lemma WaitingAfterAnswer(world: World, first: nat, i: nat, errors: nat)
    requires Waiting(world, first, i, errors) && world.polls(i).answer == Running(false)
    ensures Waiting(world, first, i + 1, 0)
  {
    assert i >= 5 ==> !SixFaults(world, i - 5) by {
      assert i >= 5 && SixFaults(world, i - 5) ==> Faulty(world.polls(i).answer);
    }
  }

  lemma WaitingAfterFault(world: World, first: nat, i: nat, errors: nat)
    requires Waiting(world, first, i, errors) && Faulty(world.polls(i).answer) && errors < MAX_POLL_ERRORS
    ensures Waiting(world, first, i + 1, errors + 1)
  {
    assert forall k: nat | first <= k && k + 6 == i + 1 && SixFaults(world, k) ::
          Faulty(world.polls(i - errors - 1).answer);
  }

  /** Six failures in a row end before a decisive answer, so only the last six polls can be such. */
  lemma NoSixBefore(world: World, first: nat, i: nat, errors: nat, k: nat)
    requires Waiting(world, first, i, errors) && first <= k && k + 6 <= i + 1 && SixFaults(world, k)
    ensures k + 6 == i + 1 && Faulty(world.polls(i).answer) && errors == MAX_POLL_ERRORS
  {
    assert Faulty(world.polls(i).answer);
  }

  lemma TimeoutExplained(world: World, first: nat, i: nat, errors: nat, now: real, deadline: real)
    requires Waiting(world, first, i, errors) && now > deadline
    ensures Explained(world, first, Waited(OutOfTime, i, now), deadline)
  {
  }

  lemma DecisionExplained(world: World, first: nat, i: nat, errors: nat, outcome: WaitOutcome, end: real,
        deadline: real)
    requires Waiting(world, first, i, errors) && !Undecided(world.polls(i).answer)
    requires match world.polls(i).answer
             case NotFound => outcome == Lost
             case Running(_) => outcome == Interrupted
             case Finished(segments, meta, diarizeFailed) => outcome == Result(segments, meta, diarizeFailed)
             case _ => outcome == JobFailed
    ensures Explained(world, first, Waited(outcome, i + 1, end), deadline)
  {
    forall k: nat | first <= k && k + 6 <= i + 1
      ensures !SixFaults(world, k)
    {
      if k + 6 == i + 1 {
        assert !Faulty(world.polls(i).answer);
      }
    }
  }

  lemma GivingUpExplained(world: World, first: nat, i: nat, end: real, deadline: real)
    requires Waiting(world, first, i, MAX_POLL_ERRORS) && Faulty(world.polls(i).answer)
    ensures Explained(world, first, Waited(Unavailable, i + 1, end), deadline)
  {
    forall k: nat | first <= k && k + 6 <= i + 1 && SixFaults(world, k)
      ensures k + 6 == i + 1
    {
      NoSixBefore(world, first, i, MAX_POLL_ERRORS, k);
    }
  }

  lemma {:induction false} WaitFromExplained(world: World, first: nat, i: nat, errors: nat, now: real, deadline: real,
        interval: Interval)
    returns (w: Waited)
    requires Waiting(world, first, i, errors)
    ensures w == WaitFrom(world, i, errors, now, deadline, interval)
    ensures Explained(world, first, w, deadline)
    decreases Rounds(now, deadline, interval)
  {
    w := WaitFrom(world, i, errors, now, deadline, interval);
    if now > deadline {
      TimeoutExplained(world, first, i, errors, now, deadline);
    } else {
      var poll := world.polls(i);
      var after := now + poll.took;
      RoundsFall(now, after + interval, deadline, interval);
      if poll.answer == Running(false) {
        WaitingAfterAnswer(world, first, i, errors);
        w := WaitFromExplained(world, first, i + 1, 0, after + interval, deadline, interval);
      } else if !Faulty(poll.answer) {
        DecisionExplained(world, first, i, errors, w.outcome, w.end, deadline);
      } else if errors < MAX_POLL_ERRORS {
        WaitingAfterFault(world, first, i, errors);
        w := WaitFromExplained(world, first, i + 1, errors + 1, after + interval, deadline, interval);
      } else {
        GivingUpExplained(world, first, i, after, deadline);
      }
    }
  }

  lemma WaitExplained(world: World, first: nat, now: real, deadline: real, interval: Interval)
    ensures Explained(world, first, Wait(world, first, now, deadline, interval), deadline)
  {
    var w := WaitFromExplained(world, first, first, 0, now, deadline, interval);
  }

  /* ---------- one call, with resubmissions ---------- */

  datatype Called = Called(outcome: WaitOutcome, submissions: seq<real>, end: real)
  {
    /** The same, after these earlier submissions. */
    function After(earlier: seq<real>): Called {
      this.(submissions := earlier + submissions)
    }
  }

  lemma AfterTwice(c: Called, a: seq<real>, b: seq<real>)
    ensures c.After(b).After(a) == c.After(a + b)
    ensures a + [] == a
  {
    assert a + (b + c.submissions) == (a + b) + c.submissions;
  }

  /** One submission and, when the runner takes it under the id asked for, the wait for it. */
  function Once(world: World, attempt: nat, polls: nat, now: real, deadline: real, interval: Interval): Waited {
    var Submission(answer, took) := world.submits(attempt);
    match answer
    case Refused => Waited(JobFailed, polls, now + took)
    case ServerFault => Waited(Unavailable, polls, now + took)
    case Unreached => Waited(Unavailable, polls, now + took)
    case Accepted(sameId) =>
      if !sameId then Waited(JobFailed, polls, now + took) else Wait(world, polls, now + took, deadline, interval)
  }

  /** From the `attempt`-th submission on; the deadline spans all of them. */
  function CallFrom(world: World, attempt: nat, polls: nat, now: real, deadline: real, interval: Interval,
        maxResubmits: nat): Called
    requires attempt <= maxResubmits
    decreases maxResubmits - attempt
  {
    if deadline - now <= 0.0 then Called(OutOfTime, [], now)
    else
      var w := Once(world, attempt, polls, now, deadline, interval);
      if w.outcome.Lost? && attempt < maxResubmits
      then CallFrom(world, attempt + 1, w.polls, w.end, deadline, interval, maxResubmits).After([now])
      else Called(w.outcome, [now], w.end)
  }

  function Call(world: World, now: real, timeout: real, interval: Interval, maxResubmits: nat): Called {
    CallFrom(world, 0, 0, now, now + timeout, interval, maxResubmits)
  }

  method SubmitAndWait(world: World, attempt: nat, polls: nat, start: real, deadline: real, interval: Interval)
    returns (w: Waited)
    ensures w == Once(world, attempt, polls, start, deadline, interval)
  {
    var reply := world.submits(attempt);
    var now := start + reply.took;
    match reply.answer {
      case Refused => return Waited(JobFailed, polls, now);
      case ServerFault => return Waited(Unavailable, polls, now);
      case Unreached => return Waited(Unavailable, polls, now);
      case Accepted(sameId) =>
        if !sameId {
          return Waited(JobFailed, polls, now);
        }
        w := PollUntilDone(world, polls, now, deadline, interval);
    }
  }

  method Transcribe(world: World, start: real, timeout: real, interval: Interval, maxResubmits: nat) returns (c: Called)
    ensures c == Call(world, start, timeout, interval, maxResubmits)
  {
    var deadline := start + timeout;
    var now, polls, submissions := start, 0, [];
    for attempt := 0 to maxResubmits + 1
      invariant attempt <= maxResubmits
      invariant Call(world, start, timeout, interval, maxResubmits)
             == CallFrom(world, attempt, polls, now, deadline, interval, maxResubmits).After(submissions)
    {
      if deadline - now <= 0.0 {
        AfterTwice(Called(OutOfTime, [], now), submissions, []);
        return Called(OutOfTime, submissions, now);
      }
      var w := SubmitAndWait(world, attempt, polls, now, deadline, interval);
      if !w.outcome.Lost? || attempt == maxResubmits {
        return Called(w.outcome, submissions + [now], w.end);
      }
      AfterTwice(CallFrom(world, attempt + 1, w.polls, w.end, deadline, interval, maxResubmits), submissions, [now]);
      polls, now, submissions := w.polls, w.end, submissions + [now];
    }
  }

  lemma {:induction false} CallInTime(world: World, attempt: nat, polls: nat, now: real, deadline: real,
        interval: Interval, maxResubmits: nat)
    requires attempt <= maxResubmits
    ensures var c := CallFrom(world, attempt, polls, now, deadline, interval, maxResubmits);
            && |c.submissions| <= maxResubmits + 1 - attempt
            && (forall k | 0 <= k < |c.submissions| :: c.submissions[k] < deadline)
            && (c.submissions == [] <==> now >= deadline)
            && (c.submissions == [] ==> c.outcome.OutOfTime?)
            && (c.outcome.Lost? ==> |c.submissions| == maxResubmits + 1 - attempt)
    decreases maxResubmits - attempt
  {
    if now < deadline {
      var w := Once(world, attempt, polls, now, deadline, interval);
      if w.outcome.Lost? && attempt < maxResubmits {
        CallInTime(world, attempt + 1, w.polls, w.end, deadline, interval, maxResubmits);
      }
    }
  }

  /* ---------- the deadline of a request id ---------- */

  const MAX_RESUBMITS: nat := 2

  /** The call a worker makes for a job: what is left of the job's time, counted from when the attempt
      started, is handed to the runner client when the input has been checked, at `callAt`. */
  function WorkerCall(world: World, job: Job, callAt: real, interval: Interval): Called
    requires job.Transcription?
  {
    Call(world, callAt, job.limit - (job.started - job.base), interval, MAX_RESUBMITS)
  }

  function ReplyOf(outcome: WaitOutcome): Reply {
    match outcome
    case Result(segments, meta, diarizeFailed) => Transcribed(segments, meta, diarizeFailed)
    case OutOfTime => TimedOut
    case Unavailable => Unreachable
    case Lost => Broke
    case JobFailed => Broke
    case Interrupted => Broke
  }

  /** For a recording deleted meanwhile, the failing commit is the report the protocol has as a step of its own. */
  lemma InterruptedIsTheReport(s: System, worker: WorkerId)
    requires worker in s.jobs && s.jobs[worker].Transcription? && s.jobs[worker].recording !in s.db.recordings
    ensures Next(s, Finish(worker, ReplyOf(Interrupted))) == Next(s, Report(worker))
    ensures worker !in Next(s, Report(worker)).jobs && Next(s, Report(worker)).db == s.db
  {
  }

  /** Across all attempts under one request id, nothing is submitted later than the limit after the id was
      made, give or take the time an attempt spends between its start and its call. */
  lemma SubmittedInTime(world: World, job: Job, callAt: real, interval: Interval)
    requires job.Transcription? && callAt >= job.started
    ensures var c := WorkerCall(world, job, callAt, interval);
            && |c.submissions| <= 3
            && (forall k | 0 <= k < |c.submissions| :: c.submissions[k] < job.base + job.limit + (callAt - job.started))
  {
    CallInTime(world, 0, 0, callAt, callAt + (job.limit - (job.started - job.base)), interval, MAX_RESUBMITS);
  }

  /** So in every run, for every attempt: from the instant the request id was made, the limit for the recording's
      length, whatever number of attempts came before. */
  lemma {:induction false} DeadlineInEveryRun(events: seq<Event>, worker: WorkerId, world: World, callAt: real,
        interval: Interval)
    ensures var s := Run(INITIAL, events);
            worker in s.jobs && s.jobs[worker].Transcription? && callAt >= s.jobs[worker].started ==>
              var job := s.jobs[worker];
              && job.token < |s.db.issued|
              && var c := WorkerCall(world, job, callAt, interval);
              forall k | 0 <= k < |c.submissions| ::
                c.submissions[k] < s.db.issued[job.token] + JobTimeout(job.declared) + (callAt - job.started)
  {
    Guarantees.Reachable(events);
    var s := Run(INITIAL, events);
    if worker in s.jobs && s.jobs[worker].Transcription? && callAt >= s.jobs[worker].started {
      assert Safety.JobOk(s.db, s.jobs[worker]);
      SubmittedInTime(world, s.jobs[worker], callAt, interval);
    }
  }

  predicate AllInTime(submissions: seq<real>, bound: real) {
    forall k | 0 <= k < |submissions| :: submissions[k] <= bound
  }

  /** Accepts the first submission at once, forgets the job on the poll that ends after `delay`. */
  function ForgetfulWorld(delay: Seconds): World {
    World(_ => Submission(Accepted(true), 0.0), _ => Poll(NotFound, delay))
  }

  /** A submission after the bound: the first, or the one that follows a job forgotten late. */
  lemma LateSubmission(job: Job, callAt: real, interval: Interval, delay: Seconds)
    requires job.Transcription? && job.started < callAt && job.started < job.base + job.limit
    requires job.base + job.limit - callAt < delay < job.base + job.limit - job.started
    ensures !AllInTime(WorkerCall(ForgetfulWorld(delay), job, callAt, interval).submissions, job.base + job.limit)
  {
    var world, deadline := ForgetfulWorld(delay), callAt + (job.limit - (job.started - job.base));
    var c := WorkerCall(world, job, callAt, interval);
    assert Wait(world, 0, callAt + 0.0, deadline, interval) == Waited(Lost, 1, callAt + delay);
    assert c.submissions[1] == callAt + delay;
  }

  /** Hashing a scanned file comes between the start of an attempt and its call, and is not taken off the
      time that is left. So the bound on submissions counted from the request id alone holds, whatever the
      runner does, exactly when no time passes there or the time is already up. */
  lemma DeadlineExactlyWithoutDelay(job: Job, callAt: real, interval: Interval)
    requires job.Transcription? && callAt >= job.started
    ensures (forall world :: AllInTime(WorkerCall(world, job, callAt, interval).submissions, job.base + job.limit))
       <==> (callAt == job.started || job.started >= job.base + job.limit)
  {
    var bound := job.base + job.limit;
    if callAt == job.started || job.started >= bound {
      forall world
        ensures AllInTime(WorkerCall(world, job, callAt, interval).submissions, bound)
      {
        SubmittedInTime(world, job, callAt, interval);
        if job.started >= bound {
          NothingSubmitted(world, job, callAt, interval);
        }
      }
    } else {
      var least := if callAt < bound then bound - callAt else 0.0;
      LateSubmission(job, callAt, interval, (least + (bound - job.started)) / 2.0);
    }
  }

  lemma NothingSubmitted(world: World, job: Job, callAt: real, interval: Interval)
    requires job.Transcription? && callAt >= job.started && job.started >= job.base + job.limit
    ensures WorkerCall(world, job, callAt, interval).submissions == []
  {
  }

  /** The first attempt that starts past the limit submits nothing, and the recording it still holds ends in
      error without its request id. */
  lemma PastTheDeadlineEndsInError(world: World, db: Db, job: Job, callAt: real, interval: Interval)
    requires Holds(db, job) && callAt >= job.started && job.started >= job.base + job.limit
    ensures var c := WorkerCall(world, job, callAt, interval);
            var after := FinishJob(db, job, ReplyOf(c.outcome)).0;
            && c.submissions == []
            && after.recordings[job.recording].status == Failed
            && after.recordings[job.recording].requestId.None?
  {
  }
}
