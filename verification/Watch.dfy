/** The folder watcher: an event thread notes files, a polling thread registers those gone quiet. */
module Watch {
  import opened Records

  const QUIET: real := 5.0

  /** A pending entry. Entries are compared by identity, here by `serial`; `since` is history. */
  datatype Entry = Entry(signature: Signature, due: real, serial: nat, since: real)

  /** `todo` is what is left of the snapshot the current pass took at `passAt`. The last two fields are
      history: the newest entry made for each path, and the newest one taken away from it. */
  datatype State = State(
    pending: map<Path, Entry>,
    registered: map<Path, Signature>,
    serial: nat,
    todo: seq<(Path, Entry)>,
    passAt: real,
    newest: map<Path, nat>,
    settled: map<Path, nat>)

  /** How handling one file of the snapshot ended. `saved` is the signature its row carries afterwards. */
  datatype Outcome = Unstable(signature: Signature) | Saved(saved: Option<Signature>) | Vanished | Broke

  datatype Step =
    | Note(path: Path, signature: Signature, now: real)
    | Forget(path: Path)
    | StartPass(ready: seq<(Path, Entry)>, now: real)
    | Handle(outcome: Outcome, now: real)

  function WithEntry(s: State, path: Path, signature: Signature, now: real): State {
    s.(pending := s.pending[path := Entry(signature, now + QUIET, s.serial, now)],
    newest := s.newest[path := s.serial],
    serial := s.serial + 1)
  }

  function WithoutEntry(s: State, path: Path): State {
    if path in s.pending then
      s.(pending := s.pending - {path}, settled := s.settled[path := s.pending[path].serial])
    else s
  }

  /** An event for a file, unless this very state of it is registered or already pending. */
  function Noted(s: State, path: Path, signature: Signature, now: real): State {
    if path in s.registered && s.registered[path] == signature then s
    else if path in s.pending && s.pending[path].signature == signature then s
    else WithEntry(s, path, signature, now)
  }

  function Forgotten(s: State, path: Path): State {
    WithoutEntry(s, path).(registered := s.registered - {path})
  }

  /** A snapshot: the entries that are due, each once, in some order. */
  predicate Snapshot(s: State, ready: seq<(Path, Entry)>, now: real) {
    && (forall i, j | 0 <= i < j < |ready| :: ready[i].0 != ready[j].0)
    && (forall k | 0 <= k < |ready| ::
          ready[k].0 in s.pending && s.pending[ready[k].0] == ready[k].1 && ready[k].1.due <= now)
    && (forall p | p in s.pending && s.pending[p].due <= now :: (p, s.pending[p]) in ready)
  }

  predicate IsPending(s: State, path: Path, entry: Entry) {
    path in s.pending && s.pending[path].serial == entry.serial
  }

  function Handled(s: State, outcome: Outcome, now: real): State
    requires s.todo != []
  {
    var (path, entry) := s.todo[0];
    var rest := s.(todo := s.todo[1..]);
    match outcome
    case Unstable(signature) => if IsPending(s, path, entry) then WithEntry(rest, path, signature, now) else rest
    case Broke => if IsPending(s, path, entry) then WithEntry(rest, path, entry.signature, now) else rest
    case Vanished => if IsPending(s, path, entry) then WithoutEntry(rest, path) else rest
    case Saved(saved) =>
      var r := if IsPending(s, path, entry) then WithoutEntry(rest, path) else rest;
      if saved == Some(entry.signature) then r.(registered := r.registered[path := entry.signature]) else r
  }

  /** Steps of the two threads interleave in any way; each holds the lock once. */
  function Next(s: State, e: Step): State {
    match e
    case Note(path, signature, now) => Noted(s, path, signature, now)
    case Forget(path) => Forgotten(s, path)
    case StartPass(ready, now) =>
      if s.todo == [] && Snapshot(s, ready, now) then s.(todo := ready, passAt := now) else s
    case Handle(outcome, now) => if s.todo != [] then Handled(s, outcome, now) else s
  }

  const INITIAL := State(map[], map[], 0, [], 0.0, map[], map[])

  function Run(steps: seq<Step>): State {
    if steps == [] then INITIAL else Next(Run(steps[..|steps| - 1]), steps[|steps| - 1])
  }

  /* ---------- the handler ---------- */

  class Handler {
    var pending: map<Path, Entry>
    var registered: map<Path, Signature>
    var serial: nat

    constructor ()
      ensures pending == map[] && registered == map[] && serial == 0
    {
      pending, registered, serial := map[], map[], 0;
    }

    ghost predicate Shows(s: State)
      reads this
    {
      s.pending == pending && s.registered == registered && s.serial == serial
    }

    method OnEvent(path: Path, signature: Signature, now: real, ghost s: State)
      requires Shows(s)
      modifies this
      ensures Shows(Noted(s, path, signature, now))
    {
      if path in registered && registered[path] == signature {
        return;
      }
      if path !in pending || pending[path].signature != signature {
        pending := pending[path := Entry(signature, now + QUIET, serial, now)];
        serial := serial + 1;
      }
    }

    method OnDeleted(path: Path, ghost s: State)
      requires Shows(s)
      modifies this
      ensures Shows(Forgotten(s, path))
    {
      pending := pending - {path};
      registered := registered - {path};
    }

    method TakeReady(now: real, ghost s: State) returns (ready: seq<(Path, Entry)>)
      requires Shows(s)
      ensures Snapshot(s, ready, now)
    {
      var left := pending.Keys;
      ready := [];
      while left != {}
        invariant left <= pending.Keys
        invariant forall i, j | 0 <= i < j < |ready| :: ready[i].0 != ready[j].0
        invariant forall k | 0 <= k < |ready| ::
            ready[k].0 in pending.Keys - left && pending[ready[k].0] == ready[k].1 && ready[k].1.due <= now
        invariant forall p | p in pending.Keys - left && pending[p].due <= now :: (p, pending[p]) in ready
      {
        var path :| path in left;
        if pending[path].due <= now {
          ready := ready + [(path, pending[path])];
        }
        left := left - {path};
      }
    }

    method Retry(path: Path, entry: Entry, signature: Signature, now: real)
      modifies this
      ensures registered == old(registered)
      ensures if path in old(pending) && old(pending)[path].serial == entry.serial
              then pending == old(pending)[path := Entry(signature, now + QUIET, old(serial), now)]
                    && serial == old(serial) + 1
              else pending == old(pending) && serial == old(serial)
    {
      if path in pending && pending[path].serial == entry.serial {
        pending := pending[path := Entry(signature, now + QUIET, serial, now)];
        serial := serial + 1;
      }
    }

    method Finish(path: Path, entry: Entry, outcome: Outcome, now: real, ghost s: State)
      requires Shows(s) && s.todo != [] && s.todo[0] == (path, entry)
      modifies this
      ensures Shows(Handled(s, outcome, now))
    {
      match outcome {
        case Unstable(signature) => Retry(path, entry, signature, now);
        case Broke => Retry(path, entry, entry.signature, now);
        case Vanished =>
          if path in pending && pending[path].serial == entry.serial {
            pending := pending - {path};
          }
        case Saved(saved) =>
          if path in pending && pending[path].serial == entry.serial {
            pending := pending - {path};
          }
          if saved == Some(entry.signature) {
            registered := registered[path := entry.signature];
          }
      }
    }
  }

  /* ---------- what holds in every interleaving ---------- */

  predicate Aged(s: State) {
    && (forall p | p in s.pending :: s.pending[p].due == s.pending[p].since + QUIET && s.pending[p].serial < s.serial)
    && (forall k | 0 <= k < |s.todo| ::
          s.todo[k].1.due == s.todo[k].1.since + QUIET && s.todo[k].1.due <= s.passAt && s.todo[k].1.serial < s.serial)
  }

  /** The newest entry of a path is either pending or was itself taken away. */
  predicate Accounted(s: State) {
    && (forall p | p in s.pending :: p in s.newest && s.newest[p] == s.pending[p].serial)
    && (forall p | p in s.newest && p !in s.pending :: p in s.settled && s.settled[p] == s.newest[p])
    && (forall p | p in s.newest :: s.newest[p] < s.serial)
  }

  lemma HandledAges(s: State, outcome: Outcome, now: real)
    requires Aged(s) && s.todo != []
    ensures Aged(Handled(s, outcome, now))
  {
    assert forall k | 0 <= k < |s.todo| - 1 :: s.todo[1..][k] == s.todo[k + 1];
  }

  lemma NextAges(s: State, e: Step)
    requires Aged(s)
    ensures Aged(Next(s, e))
  {
    if e.Handle? && s.todo != [] {
      HandledAges(s, e.outcome, e.now);
    }
  }

  lemma HandledAccounts(s: State, outcome: Outcome, now: real)
    requires Accounted(s) && s.todo != []
    ensures Accounted(Handled(s, outcome, now))
  {
  }

  lemma NextAccounts(s: State, e: Step)
    requires Accounted(s)
    ensures Accounted(Next(s, e))
  {
    if e.Handle? && s.todo != [] {
      HandledAccounts(s, e.outcome, e.now);
    }
  }

  lemma {:induction false} AlwaysAccounted(steps: seq<Step>)
    ensures Aged(Run(steps)) && Accounted(Run(steps))
  {
    if steps != [] {
      AlwaysAccounted(steps[..|steps| - 1]);
      NextAges(Run(steps[..|steps| - 1]), steps[|steps| - 1]);
      NextAccounts(Run(steps[..|steps| - 1]), steps[|steps| - 1]);
    }
  }

  /** What the watcher knows of other files is not touched. */
  predicate OthersStay(s: State, s': State, path: Path) {
    && (forall p | p in s.pending && p != path :: p in s'.pending && s'.pending[p] == s.pending[p])
    && (forall p | p in s'.pending && p != path :: p in s.pending)
    && (forall p | p in s.registered && p != path :: p in s'.registered && s'.registered[p] == s.registered[p])
    && (forall p | p in s'.registered && p != path :: p in s.registered)
  }

  /** An entry made at this instant for this state of the file, newer than any other, and due when it has been quiet. */
  predicate NewEntry(s: State, s': State, path: Path, signature: Signature, now: real) {
    && path in s'.pending
    && s'.pending[path].signature == signature
    && s'.pending[path].since == now && s'.pending[path].due == now + QUIET
    && s'.pending[path].serial == s.serial < s'.serial
  }

  predicate KnownAs(s: State, path: Path, signature: Signature) {
    || (path in s.registered && s.registered[path] == signature)
    || (path in s.pending && s.pending[path].signature == signature)
  }

  /** An event for a state of a file that is neither registered nor pending makes it pending; other events change
      nothing. So after every event that state is known. */
  lemma NotingMakesPending(s: State, path: Path, signature: Signature, now: real)
    ensures var s' := Next(s, Note(path, signature, now));
            && KnownAs(s', path, signature)
            && (KnownAs(s, path, signature) ==> s' == s)
            && (!KnownAs(s, path, signature) ==> NewEntry(s, s', path, signature, now))
            && OthersStay(s, s', path) && s'.registered == s.registered && s'.todo == s.todo && s'.passAt == s.passAt
  {
  }

  lemma ForgettingDrops(s: State, path: Path)
    ensures var s' := Next(s, Forget(path));
            path !in s'.pending && path !in s'.registered && OthersStay(s, s', path) && s'.todo == s.todo
  {
  }

  /** A pass starts when the one before is done, and works through what was due when it started. */
  lemma PassesTakeWhatIsDue(s: State, ready: seq<(Path, Entry)>, now: real)
    requires s.todo == [] && Snapshot(s, ready, now)
    ensures var s' := Next(s, StartPass(ready, now));
            && s'.pending == s.pending && s'.registered == s.registered && s'.passAt == now
            && (forall i, j | 0 <= i < j < |s'.todo| :: s'.todo[i].0 != s'.todo[j].0)
            && forall p, entry ::
                 (p, entry) in s'.todo <==> p in s.pending && s.pending[p] == entry && entry.due <= now
  {
  }

  /** What becomes of the entry in hand. If it is still the one of the snapshot, it is gone once the file is saved or
      has vanished, and begins a new quiet time otherwise: for the state the file was found in, or for the same one when
      it could not be handled. A newer entry stays. */
  predicate EntryHandled(s: State, s': State, path: Path, entry: Entry, outcome: Outcome, now: real) {
    if !IsPending(s, path, entry) then
      && (path in s'.pending <==> path in s.pending)
      && (path in s.pending ==> s'.pending[path] == s.pending[path])
    else
      match outcome
      case Unstable(signature) => NewEntry(s, s', path, signature, now)
      case Broke => NewEntry(s, s', path, entry.signature, now)
      case Vanished => path !in s'.pending
      case Saved(_) => path !in s'.pending
  }

  lemma HandlingLeavesOthers(s: State, outcome: Outcome, now: real)
    requires s.todo != []
    ensures OthersStay(s, Handled(s, outcome, now), s.todo[0].0)
  {
  }

  lemma HandlingMovesEntry(s: State, outcome: Outcome, now: real)
    requires s.todo != []
    ensures EntryHandled(s, Handled(s, outcome, now), s.todo[0].0, s.todo[0].1, outcome, now)
  {
  }

  /** Handling the next file of the pass. The file counts as registered in the state of the entry exactly if that is
      what was saved, and what is known of other files is not touched. */
  lemma HandlingDoes(s: State, outcome: Outcome, now: real)
    requires s.todo != []
    ensures var (path, entry) := s.todo[0];
            var s' := Next(s, Handle(outcome, now));
            && s'.todo == s.todo[1..] && OthersStay(s, s', path)
            && EntryHandled(s, s', path, entry, outcome, now)
            && s'.registered == if outcome == Saved(Some(entry.signature)) then s.registered[path := entry.signature]
                                else s.registered
  {
    HandlingLeavesOthers(s, outcome, now);
    HandlingMovesEntry(s, outcome, now);
  }

  /** The entry of a path stays, gives way to a newer one, or is the one being handled. */
  lemma HandlingTakesOneEntry(s: State, outcome: Outcome, now: real, path: Path)
    requires s.todo != [] && path in s.pending
    ensures var s' := Handled(s, outcome, now);
            || (path in s'.pending && s'.pending[path] == s.pending[path])
            || (s.todo[0].0 == path && s.todo[0].1.serial == s.pending[path].serial)
  {
  }

  /** An entry leaves `pending` in three ways only: its file is forgotten, a newer state of the file is
      noted, or the pass handles this very entry. Anything noted while its file was being registered is
      a different entry, and stays. */
  lemma {:induction false} NoNewerEntryIsLost(steps: seq<Step>, e: Step, path: Path)
    ensures var s := Run(steps);
            var s' := Next(s, e);
            path in s.pending ==>
              || (path in s'.pending && s'.pending[path] == s.pending[path])
              || e == Forget(path)
              || (e.Note? && e.path == path && path in s'.pending && s'.pending[path].serial > s.pending[path].serial)
              || (e.Handle? && s.todo != [] && s.todo[0].0 == path && s.todo[0].1.serial == s.pending[path].serial)
  {
    AlwaysAccounted(steps);
    var s := Run(steps);
    if e.Handle? && s.todo != [] && path in s.pending {
      HandlingTakesOneEntry(s, e.outcome, e.now, path);
    }
  }

  /** A file that could not be handled is pending again, due later; a failure touches no other file. */
  lemma FailureOnlyPostpones(steps: seq<Step>, outcome: Outcome, now: real, other: Path)
    requires Run(steps).todo != [] && (outcome.Broke? || outcome.Unstable?)
    ensures var s := Run(steps);
            var (path, entry) := s.todo[0];
            var s' := Handled(s, outcome, now);
            && (path in s.pending ==> path in s'.pending)
            && (IsPending(s, path, entry) ==> s'.pending[path].due == now + 5.0)
            && s'.registered == s.registered
            && (other != path ==> (other in s'.pending <==> other in s.pending))
            && (other != path && other in s.pending ==> s'.pending[other] == s.pending[other])
  {
  }

  /** Whatever a pass picks up has been quiet for five seconds. */
  lemma PickedUpOnlyWhenQuiet(steps: seq<Step>, k: nat)
    ensures var s := Run(steps);
            k < |s.todo| ==> s.passAt - s.todo[k].1.since >= 5.0
  {
    AlwaysAccounted(steps);
  }
}
