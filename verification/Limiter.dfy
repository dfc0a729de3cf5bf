/** The fixed-window limiter in front of password hashing. */
module Limiter {
  import opened Records

  type Key = string

  /** Both limits of the program use the same window of fifteen minutes. */
  const WINDOW: int := 900
  const SWEEP_AFTER: int := 3600

  type Counts = map<(Key, int), nat>

  /** One axis of a try: a key, the attempts it is allowed in one window, and the instant it is counted at, which
      each axis reads off the clock for itself. */
  datatype Axis = Axis(key: Key, max: nat, at: Seconds)

  function StartOf(now: Seconds): (start: int)
    ensures start % 900 == 0 && start as real <= now < (start + 900) as real
  {
    now.Floor - now.Floor % WINDOW
  }

  function Count(counts: Counts, key: Key, window: int): nat {
    if (key, window) in counts then counts[(key, window)] else 0
  }

  function Bumped(counts: Counts, key: Key, window: int): Counts {
    counts[(key, window) := Count(counts, key, window) + 1]
  }

  /** All axes are counted, whether or not one of them is over. */
  function Guarded(counts: Counts, axes: seq<Axis>): (Counts, bool) {
    if axes == [] then (counts, false)
    else
      var (before, over) := Guarded(counts, axes[..|axes| - 1]);
      var Axis(key, max, at) := axes[|axes| - 1];
      (Bumped(before, key, StartOf(at)), over || Count(before, key, StartOf(at)) + 1 > max)
  }

  /** An admitted try is committed, a refused one rolled back. */
  function Tried(counts: Counts, axes: seq<Axis>): (Counts, bool) {
    var (after, over) := Guarded(counts, axes);
    if over then (counts, false) else (after, true)
  }

  function Cleared(counts: Counts, key: Key): Counts {
    map kw | kw in counts && kw.0 != key :: counts[kw]
  }

  /** A window that a sweep at this instant leaves alone. */
  predicate Live(window: int, now: Seconds) {
    window as real >= now - SWEEP_AFTER as real
  }

  function Swept(counts: Counts, now: Seconds): Counts {
    map kw | kw in counts && Live(kw.1, now) :: counts[kw]
  }

  /** The `auth_attempts` table. */
  class Attempts {
    var counts: Counts

    constructor ()
      ensures counts == map[]
    {
      counts := map[];
    }

    method Hit(key: Key, now: Seconds) returns (count: nat)
      modifies this
      ensures counts == Bumped(old(counts), key, StartOf(now))
      ensures count == Count(counts, key, StartOf(now))
    {
      var window := StartOf(now);
      count := if (key, window) in counts then counts[(key, window)] + 1 else 1;
      counts := counts[(key, window) := count];
    }

    method Guard(axes: seq<Axis>) returns (over: bool)
      modifies this
      ensures (counts, over) == Guarded(old(counts), axes)
    {
      over := false;
      for i := 0 to |axes|
        invariant (counts, over) == Guarded(old(counts), axes[..i])
      {
        assert axes[..i + 1][..i] == axes[..i];
        var count := Hit(axes[i].key, axes[i].at);
        if count > axes[i].max {
          over := true;
        }
      }
      assert axes[..|axes|] == axes;
    }

    method GuardAttempts(axes: seq<Axis>) returns (admitted: bool)
      modifies this
      ensures (counts, admitted) == Tried(old(counts), axes)
    {
      var saved := counts;
      var over := Guard(axes);
      admitted := !over;
      if over {
        counts := saved;
      }
    }

    /** The rows of the key go, and those of every other key stay as they are. */
    method Clear(key: Key)
      modifies this
      ensures counts == Cleared(old(counts), key)
      ensures forall k, w :: Count(counts, k, w) == if k == key then 0 else Count(old(counts), k, w)
    {
      var gone := set kw | kw in counts && kw.0 == key;
      counts := counts - gone;
      assert counts == Cleared(old(counts), key);
    }

    /** No row older than the cutoff is left, and the later ones stay as they are. */
    method Sweep(now: Seconds) returns (swept: nat)
      modifies this
      ensures counts == Swept(old(counts), now)
      ensures forall k, w :: Count(counts, k, w) == if Live(w, now) then Count(old(counts), k, w) else 0
      ensures swept == |old(counts)| - |counts|
    {
      var gone := set kw | kw in counts && kw.1 as real < now - SWEEP_AFTER as real;
      swept := |gone|;
      RemovedSize(counts, gone);
      SweptIs(counts, gone, now);
      counts := counts - gone;
    }
  }

  lemma RemovedSize(counts: Counts, gone: set<(Key, int)>)
    requires gone <= counts.Keys
    ensures |counts - gone| == |counts| - |gone|
  {
    assert counts.Keys == (counts - gone).Keys + gone;
    assert |counts.Keys| == |counts| && |(counts - gone).Keys| == |counts - gone|;
  }

  lemma SweptIs(counts: Counts, gone: set<(Key, int)>, now: Seconds)
    requires gone == set kw | kw in counts && kw.1 as real < now - SWEEP_AFTER as real
    ensures counts - gone == Swept(counts, now)
  {
  }

  /* ---------- runs ---------- */

  datatype Event = Try(axes: seq<Axis>) | Clear(key: Key) | Sweep(now: Seconds)

  function Next(counts: Counts, e: Event): Counts {
    match e
    case Try(axes) => Tried(counts, axes).0
    case Clear(key) => Cleared(counts, key)
    case Sweep(now) => Swept(counts, now)
  }

  function Run(events: seq<Event>): Counts {
    if events == [] then map[] else Next(Run(events[..|events| - 1]), events[|events| - 1])
  }

  /** How often a try counts this key in this window. */
  function Occurrences(axes: seq<Axis>, key: Key, window: int): nat {
    if axes == [] then 0
    else
      var last := axes[|axes| - 1];
      Occurrences(axes[..|axes| - 1], key, window) + if last.key == key && StartOf(last.at) == window then 1 else 0
  }

  /** What the program promises to count: admitted tries of a key in a window since it was last cleared. */
  function Admissions(events: seq<Event>, key: Key, window: int): nat {
    if events == [] then 0
    else
      var last, rest := events[|events| - 1], events[..|events| - 1];
      match last
      case Try(axes) =>
        Admissions(rest, key, window) + if Tried(Run(rest), axes).1 then Occurrences(axes, key, window) else 0
      case Clear(k) => if k == key then 0 else Admissions(rest, key, window)
      case Sweep(_) => Admissions(rest, key, window)
  }

  /** The time after these axes have been counted. */
  function ClockOf(axes: seq<Axis>, before: Seconds): Seconds {
    if axes == [] then before else axes[|axes| - 1].at
  }

  predicate AxesInOrder(axes: seq<Axis>, before: Seconds) {
    axes == [] ||
    (var rest := axes[..|axes| - 1]; AxesInOrder(rest, before) && ClockOf(rest, before) <= axes[|axes| - 1].at)
  }

  /** The last instant read off the clock. */
  function Clock(events: seq<Event>): Seconds {
    if events == [] then 0.0
    else
      var last, before := events[|events| - 1], Clock(events[..|events| - 1]);
      match last
      case Try(axes) => ClockOf(axes, before)
      case Clear(_) => before
      case Sweep(now) => now
  }

  predicate InOrder(events: seq<Event>) {
    events == [] ||
    (var last, rest := events[|events| - 1], events[..|events| - 1];
     && InOrder(rest)
     && (last.Try? ==> AxesInOrder(last.axes, Clock(rest)))
     && (last.Sweep? ==> Clock(rest) <= last.now))
  }

  lemma {:induction false} GuardedCounts(counts: Counts, axes: seq<Axis>, key: Key, window: int)
    ensures Count(Guarded(counts, axes).0, key, window) == Count(counts, key, window) + Occurrences(axes, key, window)
  {
    if axes != [] {
      GuardedCounts(counts, axes[..|axes| - 1], key, window);
    }
  }

  lemma {:induction false} ClockAdvances(axes: seq<Axis>, before: Seconds)
    requires AxesInOrder(axes, before)
    ensures before <= ClockOf(axes, before)
    ensures forall j | 0 <= j < |axes| :: before <= axes[j].at <= ClockOf(axes, before)
  {
    if axes != [] {
      ClockAdvances(axes[..|axes| - 1], before);
      assert forall j | 0 <= j < |axes| - 1 :: axes[..|axes| - 1][j] == axes[j];
    }
  }

  /** The row of every live window is exactly the admitted tries. */
  lemma {:induction false} CountIsAdmissions(events: seq<Event>, key: Key, window: int)
    requires InOrder(events) && Live(window, Clock(events))
    ensures Count(Run(events), key, window) == Admissions(events, key, window)
  {
    if events != [] {
      var last, rest := events[|events| - 1], events[..|events| - 1];
      match last {
        case Try(axes) =>
          ClockAdvances(axes, Clock(rest));
          GuardedCounts(Run(rest), axes, key, window);
        case Clear(k) =>
        case Sweep(now) =>
      }
      CountIsAdmissions(rest, key, window);
    }
  }

  /** Every axis of this key allows at most `max` attempts. */
  predicate Capped(axes: seq<Axis>, key: Key, max: nat) {
    forall j | 0 <= j < |axes| && axes[j].key == key :: axes[j].max <= max
  }

  predicate AllCapped(events: seq<Event>, key: Key, max: nat) {
    forall i | 0 <= i < |events| && events[i].Try? :: Capped(events[i].axes, key, max)
  }

  lemma {:induction false} AdmittedWithin(counts: Counts, axes: seq<Axis>, key: Key, window: int, max: nat)
    requires Capped(axes, key, max) && !Guarded(counts, axes).1 && Occurrences(axes, key, window) > 0
    ensures Count(Guarded(counts, axes).0, key, window) <= max
  {
    var last, rest := axes[|axes| - 1], axes[..|axes| - 1];
    if last.key != key || StartOf(last.at) != window {
      assert Capped(rest, key, max);
      AdmittedWithin(counts, rest, key, window, max);
    }
  }

  /** A try that counts a key in a window is admitted only while that window is live. */
  lemma {:induction false} OccursInLiveWindow(axes: seq<Axis>, key: Key, window: int, now: Seconds)
    requires Occurrences(axes, key, window) > 0 && (forall j | 0 <= j < |axes| :: now <= axes[j].at)
    ensures Live(window, now)
  {
    if StartOf(axes[|axes| - 1].at) != window || axes[|axes| - 1].key != key {
      OccursInLiveWindow(axes[..|axes| - 1], key, window, now);
    }
  }

  /** No window ever admits more than the limit, sweeps or not, also when a try lies astride two windows. */
  lemma {:induction false} WindowNeverExceedsLimit(events: seq<Event>, key: Key, max: nat, window: int)
    requires InOrder(events) && AllCapped(events, key, max)
    ensures Admissions(events, key, window) <= max
  {
    if events != [] {
      var last, rest := events[|events| - 1], events[..|events| - 1];
      WindowNeverExceedsLimit(rest, key, max, window);
      if last.Try? && Tried(Run(rest), last.axes).1 && Occurrences(last.axes, key, window) > 0 {
        ClockAdvances(last.axes, Clock(rest));
        OccursInLiveWindow(last.axes, key, window, Clock(rest));
        CountIsAdmissions(rest, key, window);
        GuardedCounts(Run(rest), last.axes, key, window);
        assert Capped(events[|events| - 1].axes, key, max);
        AdmittedWithin(Run(rest), last.axes, key, window, max);
      }
    }
  }

  /** The `j`-th axis counts more than it allows, the axes before it included. */
  predicate Exceeds(counts: Counts, axes: seq<Axis>, j: nat)
    requires j < |axes|
  {
    var window := StartOf(axes[j].at);
    Count(counts, axes[j].key, window) + Occurrences(axes[..j + 1], axes[j].key, window) > axes[j].max
  }

  /** A try is refused exactly when some axis of it exceeds what it allows. */
  lemma {:induction false} RefusedExactly(counts: Counts, axes: seq<Axis>)
    ensures Tried(counts, axes).1 <==> forall j | 0 <= j < |axes| :: !Exceeds(counts, axes, j)
  {
    if axes != [] {
      var rest, last := axes[..|axes| - 1], axes[|axes| - 1];
      RefusedExactly(counts, rest);
      GuardedCounts(counts, rest, last.key, StartOf(last.at));
      var n := |rest|;
      assert axes[..n + 1] == axes;
      assert Occurrences(axes, last.key, StartOf(last.at)) == Occurrences(rest, last.key, StartOf(last.at)) + 1;
      assert Exceeds(counts, axes, n) <==> Count(Guarded(counts, rest).0, last.key, StartOf(last.at)) + 1 > last.max;
      forall j | 0 <= j < n
        ensures Exceeds(counts, axes, j) == Exceeds(counts, rest, j)
      {
        assert axes[..j + 1] == rest[..j + 1] && axes[j] == rest[j];
      }
      if forall j | 0 <= j < n :: !Exceeds(counts, rest, j) {
        assert forall j | 0 <= j < n :: !Exceeds(counts, axes, j);
      } else {
        var j :| 0 <= j < n && Exceeds(counts, rest, j);
        assert Exceeds(counts, axes, j);
      }
    }
  }

  /** How often a try counts this key in `[from, from + WINDOW)`. */
  function OccurrencesIn(axes: seq<Axis>, key: Key, from: Seconds): nat {
    if axes == [] then 0
    else
      var last := axes[|axes| - 1];
      OccurrencesIn(axes[..|axes| - 1], key, from)
      + if last.key == key && from <= last.at < from + WINDOW as real then 1 else 0
  }

  /** Admitted tries of a key in `[from, from + WINDOW)` since it was last cleared. */
  function AdmissionsIn(events: seq<Event>, key: Key, from: Seconds): nat {
    if events == [] then 0
    else
      var last, rest := events[|events| - 1], events[..|events| - 1];
      match last
      case Try(axes) =>
        AdmissionsIn(rest, key, from) + if Tried(Run(rest), axes).1 then OccurrencesIn(axes, key, from) else 0
      case Clear(k) => if k == key then 0 else AdmissionsIn(rest, key, from)
      case Sweep(_) => AdmissionsIn(rest, key, from)
  }

  lemma OneMultipleBetween(a: int, b: int)
    requires a % 900 == 0 && b % 900 == 0 && a <= b < a + 1800
    ensures b == a || b == a + 900
  {
  }

  lemma MeetsTwoWindows(from: Seconds, at: Seconds)
    requires from <= at < from + WINDOW as real
    ensures StartOf(at) == StartOf(from) || StartOf(at) == StartOf(from) + WINDOW
  {
    OneMultipleBetween(StartOf(from), StartOf(at));
  }

  lemma {:induction false} AxesMeetTwoWindows(axes: seq<Axis>, key: Key, from: Seconds)
    ensures OccurrencesIn(axes, key, from)
         <= Occurrences(axes, key, StartOf(from)) + Occurrences(axes, key, StartOf(from) + WINDOW)
  {
    if axes != [] {
      AxesMeetTwoWindows(axes[..|axes| - 1], key, from);
      var at := axes[|axes| - 1].at;
      if from <= at < from + WINDOW as real {
        MeetsTwoWindows(from, at);
      }
    }
  }

  lemma {:induction false} IntervalMeetsTwoWindows(events: seq<Event>, key: Key, from: Seconds)
    ensures AdmissionsIn(events, key, from)
         <= Admissions(events, key, StartOf(from)) + Admissions(events, key, StartOf(from) + WINDOW)
  {
    if events != [] {
      IntervalMeetsTwoWindows(events[..|events| - 1], key, from);
      if events[|events| - 1].Try? {
        AxesMeetTwoWindows(events[|events| - 1].axes, key, from);
      }
    }
  }

  /** Wherever an interval of one window length lies, it admits at most twice the limit. */
  lemma TwiceTheLimit(events: seq<Event>, key: Key, max: nat, from: Seconds)
    requires InOrder(events) && AllCapped(events, key, max)
    ensures AdmissionsIn(events, key, from) <= 2 * max
  {
    IntervalMeetsTwoWindows(events, key, from);
    WindowNeverExceedsLimit(events, key, max, StartOf(from));
    WindowNeverExceedsLimit(events, key, max, StartOf(from) + WINDOW);
  }

  /* ---------- clearing starts afresh ---------- */

  /** After a success the key has its whole allowance again, and no other key has lost or gained any. */
  lemma ClearingStartsAfresh(counts: Counts, key: Key, other: Key, window: int, max: nat, at: Seconds)
    ensures Count(Cleared(counts, key), other, window) == if other == key then 0 else Count(counts, other, window)
    ensures Tried(Cleared(counts, key), [Axis(key, max, at)]).1 <==> max >= 1
  {
    var one := Axis(key, max, at);
    assert [one][..0] == [];
    assert Guarded(Cleared(counts, key), [one][..0]) == (Cleared(counts, key), false);
  }

  /* ---------- sweeping decides nothing ---------- */

  function WithoutSweeps(events: seq<Event>): seq<Event> {
    if events == [] then []
    else
      var last, rest := events[|events| - 1], WithoutSweeps(events[..|events| - 1]);
      if last.Sweep? then rest else rest + [last]
  }

  ghost predicate AgreeFrom(a: Counts, b: Counts, now: Seconds) {
    forall key, window :: Live(window, now) ==> Count(a, key, window) == Count(b, key, window)
  }

  lemma {:induction false} GuardedAgree(a: Counts, b: Counts, axes: seq<Axis>, now: Seconds)
    requires AgreeFrom(a, b, now) && (forall j | 0 <= j < |axes| :: now <= axes[j].at)
    ensures Guarded(a, axes).1 == Guarded(b, axes).1
    ensures AgreeFrom(Guarded(a, axes).0, Guarded(b, axes).0, now)
  {
    if axes != [] {
      var rest, last := axes[..|axes| - 1], axes[|axes| - 1];
      assert forall j | 0 <= j < |rest| :: rest[j] == axes[j];
      GuardedAgree(a, b, rest, now);
      assert Live(StartOf(last.at), now);
    }
    forall key, window | Live(window, now)
      ensures Count(Guarded(a, axes).0, key, window) == Count(Guarded(b, axes).0, key, window)
    {
      GuardedCounts(a, axes, key, window);
      GuardedCounts(b, axes, key, window);
    }
  }

  /** Sweeping takes only rows that no later try looks at. */
  lemma SweepingKeepsLiveRows(counts: Counts, now: Seconds, key: Key, window: int)
    ensures Count(Swept(counts, now), key, window)
         == if window as real >= now - 3600.0 then Count(counts, key, window) else 0
    ensures AgreeFrom(Swept(counts, now), counts, now)
  {
  }

  lemma AgreeLater(a: Counts, b: Counts, now: Seconds, later: Seconds)
    requires AgreeFrom(a, b, now) && now <= later
    ensures AgreeFrom(a, b, later)
  {
  }

  lemma {:induction false} SweepsAgree(events: seq<Event>)
    requires InOrder(events)
    ensures AgreeFrom(Run(events), Run(WithoutSweeps(events)), Clock(events))
  {
    if events != [] {
      var last, rest := events[|events| - 1], events[..|events| - 1];
      SweepsAgree(rest);
      var a, b := Run(rest), Run(WithoutSweeps(rest));
      if !last.Sweep? {
        assert (WithoutSweeps(rest) + [last])[..|WithoutSweeps(rest)|] == WithoutSweeps(rest);
        assert Run(WithoutSweeps(events)) == Next(b, last);
      }
      match last {
        case Try(axes) =>
          ClockAdvances(axes, Clock(rest));
          GuardedAgree(a, b, axes, Clock(rest));
          AgreeLater(Next(a, last), Next(b, last), Clock(rest), Clock(events));
        case Clear(k) =>
          forall key, window | Live(window, Clock(rest))
            ensures Count(Cleared(a, k), key, window) == Count(Cleared(b, k), key, window)
          {
            assert Count(a, key, window) == Count(b, key, window);
          }
        case Sweep(now) =>
          AgreeLater(a, b, Clock(rest), now);
          assert AgreeFrom(Swept(a, now), b, now);
      }
    }
  }

  /** Every later try is decided as if nothing had ever been swept. */
  lemma SweepingDecidesNothing(events: seq<Event>, axes: seq<Axis>)
    requires InOrder(events) && AxesInOrder(axes, Clock(events))
    ensures Tried(Run(events), axes).1 == Tried(Run(WithoutSweeps(events)), axes).1
  {
    SweepsAgree(events);
    ClockAdvances(axes, Clock(events));
    GuardedAgree(Run(events), Run(WithoutSweeps(events)), axes, Clock(events));
  }
}
