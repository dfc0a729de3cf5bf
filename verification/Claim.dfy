/** Which recording a worker takes next: round-robin over workspaces, newest first inside one. */
module Claim {
  import opened Records
  import Ingest
  import Protocol
  import Safety

  /** `workspaces.last_claimed_at` by workspace id. */
  type Stamps = map<Id, Option<real>>

  /** `ORDER BY last_claimed_at NULLS FIRST, id`. */
  predicate Before(stamps: Stamps, a: Id, b: Id)
    requires a in stamps && b in stamps
  {
    if stamps[a].None? then stamps[b].Some? || a < b
    else stamps[b].Some? && (stamps[a].value < stamps[b].value || (stamps[a].value == stamps[b].value && a < b))
  }

  /** `ORDER BY recorded_at DESC NULLS LAST, id DESC`. */
  predicate Newer(recs: Table, a: Id, b: Id)
    requires a in recs && b in recs
  {
    if recs[a].recordedAt.None? then recs[b].recordedAt.None? && a > b
    else || recs[b].recordedAt.None?
         || recs[a].recordedAt.value > recs[b].recordedAt.value
         || (recs[a].recordedAt.value == recs[b].recordedAt.value && a > b)
  }

  predicate Waiting(recs: Table, workspace: Id, status: Status, held: set<Id>, id: Id) {
    id in recs && recs[id].workspace == workspace && recs[id].status == status && recs[id].pathCurrent && id !in held
  }

  function Newest(recs: Table, workspace: Id, status: Status, held: set<Id>, hi: Id): (r: Option<Id>)
    ensures r.Some? ==> r.value < hi && Waiting(recs, workspace, status, held, r.value)
    ensures r.Some? ==> forall i: Id | i < hi && i != r.value && Waiting(recs, workspace, status, held, i) ::
          Newer(recs, r.value, i)
    ensures r.None? ==> forall i: Id | i < hi :: !Waiting(recs, workspace, status, held, i)
  {
    if hi == 0 then None
    else
      var best := Newest(recs, workspace, status, held, hi - 1);
      if Waiting(recs, workspace, status, held, hi - 1) && (best.None? || Newer(recs, hi - 1, best.value))
      then Some(hi - 1) else best
  }

  /** Transcriptions first, then recordings that only lack their summary. */
  function ClaimInWorkspace(recs: Table, workspace: Id, held: set<Id>, hi: Id): Option<Id> {
    var first := Newest(recs, workspace, Pending, held, hi);
    if first.Some? then first else Newest(recs, workspace, Enriching, held, hi)
  }

  /** What a claim takes in a workspace, in so many words: of the recordings that wait to be transcribed and are not
      locked, or else of those that wait for their summary, one with the latest date, an undated one only if there is no
      other, and of several the one registered last. */
  predicate TakesNewest(recs: Table, workspace: Id, held: set<Id>, status: Status, id: Id) {
    && Waiting(recs, workspace, status, held, id)
    && forall i | i in recs && i != id && Waiting(recs, workspace, status, held, i) ::
         match recs[id].recordedAt
         case Some(date) =>
           || recs[i].recordedAt.None? || recs[i].recordedAt.value < date
           || (recs[i].recordedAt.value == date && i < id)
         case None => recs[i].recordedAt.None? && i < id
  }

  lemma NewestIsTaken(recs: Table, workspace: Id, held: set<Id>, hi: Id)
    requires forall id | id in recs :: id < hi
    ensures var found := ClaimInWorkspace(recs, workspace, held, hi);
            if exists i | i in recs :: Waiting(recs, workspace, Pending, held, i)
            then found.Some? && TakesNewest(recs, workspace, held, Pending, found.value)
            else if exists i | i in recs :: Waiting(recs, workspace, Enriching, held, i)
            then found.Some? && TakesNewest(recs, workspace, held, Enriching, found.value)
            else found.None?
  {
  }

  /** The first of `open` in claim order: `LIMIT 1` over the rows no other worker has locked. */
  function Leading(stamps: Stamps, open: set<Id>, hi: Id): (r: Option<Id>)
    requires open <= stamps.Keys
    ensures r.Some? ==> r.value < hi && r.value in open
    ensures r.Some? ==> forall w | w in open && w < hi && w != r.value :: Before(stamps, r.value, w)
    ensures r.None? ==> forall w | w in open :: w >= hi
  {
    if hi == 0 then None
    else
      var best := Leading(stamps, open, hi - 1);
      if hi - 1 in open && (best.None? || Before(stamps, hi - 1, best.value)) then Some(hi - 1) else best
  }

  /** Before all other open workspaces: one never claimed from is before any that was, then the one whose last claim is
      longest ago, and of several the one founded first. */
  lemma LeadingIsLongestIdle(stamps: Stamps, open: set<Id>, hi: Id)
    requires open <= stamps.Keys && (forall w | w in stamps :: w < hi)
    ensures Leading(stamps, open, hi).None? <==> open == {}
    ensures var r := Leading(stamps, open, hi);
            r.Some? ==>
              && r.value in open
              && forall w | w in open && w != r.value ::
                   match stamps[r.value]
                   case None => stamps[w].Some? || r.value < w
                   case Some(at) => stamps[w].Some? && (at < stamps[w].value || (at == stamps[w].value && r.value < w))
  {
  }

  function Eligible(recs: Table): set<Id> {
    set id | id in recs && Claimable(recs[id]) :: recs[id].workspace
  }

  /** The stamp-and-retry loop over at most `rounds` workspaces. */
  function ClaimRounds(recs: Table, stamps: Stamps, open: set<Id>, held: set<Id>, now: real, rounds: nat, hiW: Id,
        hi: Id)
    : (Option<Id>, Stamps)
    requires open <= stamps.Keys
  {
    if rounds == 0 then (None, stamps)
    else
      var w := Leading(stamps, open, hiW);
      if w.None? then (None, stamps)
      else
        var stamped := stamps[w.value := Some(now)];
        var found := ClaimInWorkspace(recs, w.value, held, hi);
        if found.Some? then (found, stamped)
        else ClaimRounds(recs, stamped, open, held, now, rounds - 1, hiW, hi)
  }

  /** `lockedW` and `lockedR` are the workspace and recording rows other workers hold. */
  function ClaimNext(recs: Table, stamps: Stamps, lockedW: set<Id>, lockedR: set<Id>, now: real, hiW: Id, hi: Id)
    : (Option<Id>, Stamps)
    requires Eligible(recs) <= stamps.Keys
  {
    var eligible := Eligible(recs);
    if eligible == {} then (None, stamps)
    else if |eligible| == 1 then
      var only :| only in eligible;
      assert forall w | w in eligible :: w == only by { OnlyOne(eligible, only); }
      (ClaimInWorkspace(recs, only, lockedR, hi), stamps)
    else ClaimRounds(recs, stamps, eligible - lockedW, lockedR, now, |eligible|, hiW, hi)
  }

  lemma OnlyOne(s: set<Id>, x: Id)
    requires |s| == 1 && x in s
    ensures s == {x}
  {
    assert |s - {x}| == 0;
  }

  /* ---------- what a claim finds ---------- */

  predicate HasWork(recs: Table, workspace: Id, held: set<Id>) {
    exists id | id in recs :: recs[id].workspace == workspace && Claimable(recs[id]) && id !in held
  }

  predicate IdsBelow(recs: Table, stamps: Stamps, hiW: Id, hi: Id) {
    (forall id | id in recs :: id < hi) && (forall w | w in stamps :: w < hiW)
  }

  lemma ClaimInWorkspaceComplete(recs: Table, workspace: Id, held: set<Id>, hi: Id)
    requires forall id | id in recs :: id < hi
    ensures var r := ClaimInWorkspace(recs, workspace, held, hi);
            && (r.Some? <==> HasWork(recs, workspace, held))
            && (r.Some? ==>
                  && Takes(recs, held, workspace, r)
                  && (forall i: Id | i != r.value && Waiting(recs, workspace, recs[r.value].status, held, i) ::
                        Newer(recs, r.value, i))
                  && (recs[r.value].status == Enriching ==>
                        forall i: Id :: !Waiting(recs, workspace, Pending, held, i)))
  {
    var r := ClaimInWorkspace(recs, workspace, held, hi);
    if id :| id in recs && recs[id].workspace == workspace && Claimable(recs[id]) && id !in held {
      assert Waiting(recs, workspace, recs[id].status, held, id);
    }
  }

  /** The claim took unlocked work of this workspace. */
  predicate Takes(recs: Table, held: set<Id>, workspace: Id, found: Option<Id>) {
    && found.Some?
    && found.value in recs
    && recs[found.value].workspace == workspace
    && Claimable(recs[found.value])
    && found.value !in held
  }

  function Restamped(stamps: Stamps, visited: set<Id>, now: real): Stamps {
    map w | w in stamps :: if w in visited then Some(now) else stamps[w]
  }

  /** The open workspaces ahead of this one in claim order. */
  function Ahead(stamps: Stamps, open: set<Id>, workspace: Id): set<Id>
    requires open <= stamps.Keys && workspace in stamps
  {
    set w | w in open && Before(stamps, w, workspace)
  }

  /** The open workspaces that have work for this worker. */
  function Working(recs: Table, open: set<Id>, held: set<Id>): set<Id> {
    set w | w in open && HasWork(recs, w, held)
  }

  /** The first open workspace, in claim order, that has work. */
  predicate First(stamps: Stamps, open: set<Id>, working: set<Id>, u: Id)
    requires open <= stamps.Keys
  {
    u in open && u in working && Ahead(stamps, open, u) !! working
  }

  /** Once `w` is stamped now, it stands behind `u`. */
  predicate FallsBehind(stamps: Stamps, now: real, w: Id, u: Id)
    requires u in stamps
  {
    stamps[u].None? || stamps[u].value < now || (stamps[u].value == now && u < w)
  }

  /** Every workspace ahead of `u` gives way when it is stamped. */
  predicate Passable(stamps: Stamps, open: set<Id>, now: real, u: Id)
    requires open <= stamps.Keys && u in stamps
  {
    forall w | w in Ahead(stamps, open, u) :: FallsBehind(stamps, now, w, u)
  }

  /* ---------- the loop, seen from the workspaces ---------- */

  /** The workspace the loop stops at, when it is only known which of them have work. */
  function Winner(stamps: Stamps, open: set<Id>, working: set<Id>, now: real, rounds: nat, hiW: Id): Option<Id>
    requires open <= stamps.Keys
  {
    if rounds == 0 then None
    else
      var w := Leading(stamps, open, hiW);
      if w.None? || w.value in working then w
      else Winner(stamps[w.value := Some(now)], open, working, now, rounds - 1, hiW)
  }

  /** The stamps it has put by then. */
  function StampsAfter(stamps: Stamps, open: set<Id>, working: set<Id>, now: real, rounds: nat, hiW: Id): Stamps
    requires open <= stamps.Keys
  {
    if rounds == 0 then stamps
    else
      var w := Leading(stamps, open, hiW);
      if w.None? then stamps
      else if w.value in working then stamps[w.value := Some(now)]
      else StampsAfter(stamps[w.value := Some(now)], open, working, now, rounds - 1, hiW)
  }

  lemma {:induction false} RoundsHaveAWinner(recs: Table, stamps: Stamps, open: set<Id>, held: set<Id>, now: real,
        rounds: nat, hiW: Id, hi: Id)
    requires open <= stamps.Keys && IdsBelow(recs, stamps, hiW, hi)
    ensures var found := ClaimRounds(recs, stamps, open, held, now, rounds, hiW, hi).0;
            var winner := Winner(stamps, open, Working(recs, open, held), now, rounds, hiW);
            if winner.Some? then Takes(recs, held, winner.value, found) else found.None?
    ensures ClaimRounds(recs, stamps, open, held, now, rounds, hiW, hi).1
         == StampsAfter(stamps, open, Working(recs, open, held), now, rounds, hiW)
    decreases rounds
  {
    var w := Leading(stamps, open, hiW);
    if rounds > 0 && w.Some? {
      ClaimInWorkspaceComplete(recs, w.value, held, hi);
      if w.value !in Working(recs, open, held) {
        RoundsHaveAWinner(recs, stamps[w.value := Some(now)], open, held, now, rounds - 1, hiW, hi);
      }
    }
  }

  lemma LeadingExists(stamps: Stamps, open: set<Id>, hiW: Id, u: Id) returns (w: Id)
    requires open <= stamps.Keys && (forall v | v in stamps :: v < hiW) && u in open
    ensures Leading(stamps, open, hiW) == Some(w) && w in open
    ensures Ahead(stamps, open, w) == {}
    ensures w == u || w in Ahead(stamps, open, u)
  {
    assert u < hiW;
    w := Leading(stamps, open, hiW).value;
  }

  /** Stamping a workspace ahead of `u` that gives way leaves one fewer ahead of it, and nothing else changes. */
  lemma OneFewerAhead(stamps: Stamps, open: set<Id>, now: real, w: Id, u: Id)
    requires open <= stamps.Keys && u in open && w in Ahead(stamps, open, u) && FallsBehind(stamps, now, w, u)
    ensures Ahead(stamps[w := Some(now)], open, u) == Ahead(stamps, open, u) - {w}
  {
  }

  lemma StampedOneByOne(stamps: Stamps, ahead: set<Id>, now: real, w: Id, u: Id)
    requires w in ahead && w in stamps
    ensures Restamped(stamps[w := Some(now)], ahead - {w} + {u}, now) == Restamped(stamps, ahead + {u}, now)
  {
  }

  /** The loop stops at the first workspace that has work, provided those ahead of it give way; they and it are
      stamped, and nothing else. */
  lemma {:induction false} LoopFinds(stamps: Stamps, open: set<Id>, working: set<Id>, now: real, rounds: nat,
        hiW: Id, u: Id)
    requires open <= stamps.Keys && (forall w | w in stamps :: w < hiW)
    requires First(stamps, open, working, u) && Passable(stamps, open, now, u)
    requires |Ahead(stamps, open, u)| < rounds
    ensures Winner(stamps, open, working, now, rounds, hiW) == Some(u)
    ensures StampsAfter(stamps, open, working, now, rounds, hiW) == Restamped(stamps, Ahead(stamps, open, u) + {u}, now)
    decreases rounds
  {
    var w := LeadingExists(stamps, open, hiW, u);
    if w == u {
      assert Restamped(stamps, {u}, now) == stamps[u := Some(now)];
    } else {
      OneFewerAhead(stamps, open, now, w, u);
      StampedOneByOne(stamps, Ahead(stamps, open, u), now, w, u);
      LoopFinds(stamps[w := Some(now)], open, working, now, rounds - 1, hiW, u);
    }
  }

  /** And it stops, after however many rounds, at no other. */
  lemma {:induction false} LoopFindsNothingElse(stamps: Stamps, open: set<Id>, working: set<Id>, now: real, rounds: nat,
        hiW: Id)
    requires open <= stamps.Keys
    ensures var winner := Winner(stamps, open, working, now, rounds, hiW);
            winner.Some? && (forall w | w in stamps :: w < hiW) ==>
              && winner.value in open
              && First(stamps, open, working, winner.value)
              && Passable(stamps, open, now, winner.value)
    decreases rounds
  {
    var w := Leading(stamps, open, hiW);
    if rounds > 0 && w.Some? && w.value !in working {
      LoopFindsNothingElse(stamps[w.value := Some(now)], open, working, now, rounds - 1, hiW);
      var winner := Winner(stamps[w.value := Some(now)], open, working, now, rounds - 1, hiW);
      if winner.Some? && forall v | v in stamps :: v < hiW {
        StampingPasses(stamps, open, working, now, w.value, winner.value);
      }
    }
  }

  lemma StampingPasses(stamps: Stamps, open: set<Id>, working: set<Id>, now: real, w: Id, u: Id)
    requires open <= stamps.Keys && w in open && w !in working
    requires var stamped := stamps[w := Some(now)];
             u in open && First(stamped, open, working, u) && Passable(stamped, open, now, u)
    ensures First(stamps, open, working, u) && Passable(stamps, open, now, u)
  {
    var stamped := stamps[w := Some(now)];
    forall v | v in Ahead(stamps, open, u)
      ensures v !in working && FallsBehind(stamps, now, v, u)
    {
      if v != w || Before(stamped, w, u) {
        assert v in Ahead(stamped, open, u);
      }
    }
  }

  /* ---------- when a claim misses work ---------- */

  /** The workspaces a claim looks into: a sole eligible one is looked into even when its row is locked. */
  function Looked(recs: Table, lockedW: set<Id>): set<Id> {
    if |Eligible(recs)| == 1 then Eligible(recs) else Eligible(recs) - lockedW
  }

  lemma FirstExists(stamps: Stamps, open: set<Id>, working: set<Id>, hiW: Id, any: Id) returns (u: Id)
    requires open <= stamps.Keys && (forall w | w in stamps :: w < hiW) && working <= open && any in working
    ensures First(stamps, open, working, u)
  {
    u := LeadingExists(stamps, working, hiW, any);
    forall w | w in Ahead(stamps, open, u)
      ensures w !in working
    {
      assert w !in Ahead(stamps, working, u);
    }
  }

  lemma BeforeIsTotal(stamps: Stamps, a: Id, b: Id)
    requires a in stamps && b in stamps
    ensures a == b || Before(stamps, a, b) || Before(stamps, b, a)
  {
  }

  lemma FirstIsOne(stamps: Stamps, open: set<Id>, working: set<Id>, u: Id, v: Id)
    requires open <= stamps.Keys && First(stamps, open, working, u) && First(stamps, open, working, v)
    ensures u == v
  {
    BeforeIsTotal(stamps, u, v);
  }

  lemma SoleHasNoneAhead(recs: Table, stamps: Stamps, lockedW: set<Id>, u: Id)
    requires Eligible(recs) <= stamps.Keys && |Eligible(recs)| == 1 && u in Eligible(recs)
    ensures Looked(recs, lockedW) == {u} && Ahead(stamps, {u}, u) == {}
  {
    OnlyOne(Eligible(recs), u);
  }

  /** Whatever the stamps and the clock: the claim takes work exactly when the first workspace with work, among
      those it looks into, can be passed to, and then it takes that workspace's. */
  lemma ClaimFindsExactly(recs: Table, stamps: Stamps, lockedW: set<Id>, lockedR: set<Id>, now: real, hiW: Id,
        hi: Id, u: Id)
    requires Eligible(recs) <= stamps.Keys && IdsBelow(recs, stamps, hiW, hi)
    requires var open := Looked(recs, lockedW); First(stamps, open, Working(recs, open, lockedR), u)
    ensures var (found, after) := ClaimNext(recs, stamps, lockedW, lockedR, now, hiW, hi);
            var open := Looked(recs, lockedW);
            && (found.Some? <==> Passable(stamps, open, now, u))
            && (found.Some? ==> Takes(recs, lockedR, u, found))
            && (found.Some? && |Eligible(recs)| > 1 ==> after == Restamped(stamps, Ahead(stamps, open, u) + {u}, now))
  {
    var open, rounds := Looked(recs, lockedW), |Eligible(recs)|;
    var working := Working(recs, open, lockedR);
    if rounds == 1 {
      SoleHasNoneAhead(recs, stamps, lockedW, u);
      ClaimInWorkspaceComplete(recs, u, lockedR, hi);
    } else {
      RoundsHaveAWinner(recs, stamps, open, lockedR, now, rounds, hiW, hi);
      LoopFindsNothingElse(stamps, open, working, now, rounds, hiW);
      var winner := Winner(stamps, open, working, now, rounds, hiW);
      if winner.Some? {
        FirstIsOne(stamps, open, working, u, winner.value);
      }
      if Passable(stamps, open, now, u) {
        SubsetSize(Ahead(stamps, open, u), Eligible(recs) - {u});
        LoopFinds(stamps, open, working, now, rounds, hiW, u);
      }
    }
  }

  /** Whatever a claim takes is unlocked work of a workspace it looks into. */
  lemma FoundIsWork(recs: Table, stamps: Stamps, lockedW: set<Id>, lockedR: set<Id>, now: real, hiW: Id, hi: Id)
    requires Eligible(recs) <= stamps.Keys && IdsBelow(recs, stamps, hiW, hi)
    ensures var found := ClaimNext(recs, stamps, lockedW, lockedR, now, hiW, hi).0;
            found.Some? ==>
              && found.value in recs
              && Takes(recs, lockedR, recs[found.value].workspace, found)
              && recs[found.value].workspace in Working(recs, Looked(recs, lockedW), lockedR)
  {
    var eligible := Eligible(recs);
    if |eligible| == 1 {
      var only :| only in eligible;
      SoleHasNoneAhead(recs, stamps, lockedW, only);
      ClaimInWorkspaceComplete(recs, only, lockedR, hi);
    } else {
      var open := eligible - lockedW;
      RoundsHaveAWinner(recs, stamps, open, lockedR, now, |eligible|, hiW, hi);
      LoopFindsNothingElse(stamps, open, Working(recs, open, lockedR), now, |eligible|, hiW);
    }
  }

  /** The claim misses work, coming back empty though a workspace it looks into has some, exactly when a workspace
      ahead of the first with work does not fall behind it on being stamped: that one's own stamp is later than now,
      or equal to now and its id the higher. */
  lemma ClaimMissesWorkExactly(recs: Table, stamps: Stamps, lockedW: set<Id>, lockedR: set<Id>, now: real, hiW: Id,
        hi: Id)
    requires Eligible(recs) <= stamps.Keys && IdsBelow(recs, stamps, hiW, hi)
    ensures var open := Looked(recs, lockedW);
            var working := Working(recs, open, lockedR);
            ClaimNext(recs, stamps, lockedW, lockedR, now, hiW, hi).0.None? && working != {}
            <==> exists u | u in working :: First(stamps, open, working, u) && !Passable(stamps, open, now, u)
  {
    var open := Looked(recs, lockedW);
    var working := Working(recs, open, lockedR);
    if any :| any in working {
      var u := FirstExists(stamps, open, working, hiW, any);
      ClaimFindsExactly(recs, stamps, lockedW, lockedR, now, hiW, hi, u);
      forall v | v in working && First(stamps, open, working, v)
        ensures v == u
      {
        FirstIsOne(stamps, open, working, u, v);
      }
    }
  }

  predicate StampedBefore(stamps: Stamps, now: real) {
    forall w | w in stamps :: stamps[w].Some? ==> stamps[w].value < now
  }

  /** So with every stored stamp earlier than now nothing is missed: the claim comes back empty exactly when
      each eligible workspace is locked, a sole one excepted, or has no unlocked work. */
  lemma ClaimIsComplete(recs: Table, stamps: Stamps, lockedW: set<Id>, lockedR: set<Id>, now: real, hiW: Id, hi: Id)
    requires Eligible(recs) <= stamps.Keys && StampedBefore(stamps, now) && IdsBelow(recs, stamps, hiW, hi)
    ensures ClaimNext(recs, stamps, lockedW, lockedR, now, hiW, hi).0.None? <==>
              forall w | w in Looked(recs, lockedW) :: !HasWork(recs, w, lockedR)
  {
    ClaimMissesWorkExactly(recs, stamps, lockedW, lockedR, now, hiW, hi);
    FoundIsWork(recs, stamps, lockedW, lockedR, now, hiW, hi);
    if w :| w in Looked(recs, lockedW) && HasWork(recs, w, lockedR) {
      assert w in Working(recs, Looked(recs, lockedW), lockedR);
    }
  }

  /** Two workspaces with one file each: a request is at the recording of the first and has it locked, the second was
      stamped at this very instant. */
  const FILE_A := Ingest.File(Signature(1, 1, 1, 1, 1), "a", "", None, None)
  const FILE_B := Ingest.File(Signature(1, 2, 1, 1, 1), "b", "", None, None)
  const PATH_A: Path := ["a"]
  const PATH_B: Path := ["b"]
  const FILES: Ingest.FileSystem := map[PATH_A := FILE_A, PATH_B := FILE_B]
  const ROW_A := Ingest.Registered(PATH_A, FILE_A, 0, Scanned, None)
  const ROW_B := Ingest.Registered(PATH_B, FILE_B, 1, Scanned, None)
  const QUEUE: Table := map[0 := ROW_A, 1 := ROW_B]
  const STAMPS: Stamps := map[0 := None, 1 := Some(5.0)]

  const ONE := Db(map[0 := ROW_A], 1, [], [])

  lemma Registers()
    ensures Ingest.IngestFile(Protocol.INITIAL.db, FILES, PATH_A, 0, Scanned, true).Ingested?
    ensures Ingest.IngestFile(Protocol.INITIAL.db, FILES, PATH_A, 0, Scanned, true).db == ONE
  {
  }

  lemma RegistersAnother()
    ensures PATH_A != PATH_B
    ensures Ingest.IngestFile(ONE, FILES, PATH_B, 1, Scanned, true).Ingested?
    ensures Ingest.IngestFile(ONE, FILES, PATH_B, 1, Scanned, true).db.recordings == QUEUE
  {
    assert PATH_A[0] != PATH_B[0];
    assert Ingest.CurrentAt(ONE, PATH_B).None?;
  }

  /** Registering the two files is all it takes. */
  lemma QueueIsReachable() returns (events: seq<Protocol.Event>)
    ensures Protocol.Run(Protocol.INITIAL, events).db.recordings == QUEUE && Safety.OnePerPath(QUEUE)
  {
    var a, b := Protocol.Register(FILES, PATH_A, 0, Scanned, true), Protocol.Register(FILES, PATH_B, 1, Scanned, true);
    Registers();
    RegistersAnother();
    events := [a, b];
    assert events[..1] == [a] && [a][..0] == [];
    assert Protocol.Run(Protocol.INITIAL, [a]).db == ONE;
  }

  /** The claim comes back empty while the second workspace is free and has work. */
  lemma EqualStampMissesWork()
    ensures Safety.OnePerPath(QUEUE)
    ensures exists events :: Protocol.Run(Protocol.INITIAL, events).db.recordings == QUEUE
    ensures ClaimNext(QUEUE, STAMPS, {}, {0}, 5.0, 2, 2).0.None?
    ensures HasWork(QUEUE, 1, {0}) && Claimable(QUEUE[1])
  {
    var events := QueueIsReachable();
    MissesSecond(QUEUE, STAMPS, {}, {0}, 5.0, 2);
  }

  /** Two workspaces with a claimable recording each. */
  predicate TwoRows(recs: Table) {
    && recs.Keys == {0, 1} && recs[0].workspace == 0 && recs[1].workspace == 1
    && Claimable(recs[0]) && Claimable(recs[1])
  }

  lemma BothAreOpen(recs: Table, lockedW: set<Id>)
    requires TwoRows(recs) && lockedW == {}
    ensures Eligible(recs) == Looked(recs, lockedW) == {0, 1}
  {
    assert recs[0].workspace in Eligible(recs) && recs[1].workspace in Eligible(recs);
  }

  lemma SecondHasWork(recs: Table, open: set<Id>, lockedR: set<Id>)
    requires TwoRows(recs) && open == {0, 1} && lockedR == {0}
    ensures HasWork(recs, 1, lockedR) && Working(recs, open, lockedR) == {1}
  {
  }

  lemma SecondIsBarred(stamps: Stamps, open: set<Id>, working: set<Id>, now: real)
    requires stamps.Keys == open == {0, 1} && stamps[0].None? && stamps[1] == Some(now) && working == {1}
    ensures First(stamps, open, working, 1) && !Passable(stamps, open, now, 1)
  {
    assert 0 in Ahead(stamps, open, 1);
  }

  lemma MissesSecond(recs: Table, stamps: Stamps, lockedW: set<Id>, lockedR: set<Id>, now: real, hi: Id)
    requires TwoRows(recs) && stamps.Keys == {0, 1} && stamps[0].None? && stamps[1] == Some(now)
    requires lockedW == {} && lockedR == {0} && IdsBelow(recs, stamps, hi, hi)
    ensures Eligible(recs) <= stamps.Keys && ClaimNext(recs, stamps, lockedW, lockedR, now, hi, hi).0.None?
    ensures HasWork(recs, 1, lockedR)
  {
    var open := Looked(recs, lockedW);
    BothAreOpen(recs, lockedW);
    SecondHasWork(recs, open, lockedR);
    SecondIsBarred(stamps, open, Working(recs, open, lockedR), now);
    ClaimFindsExactly(recs, stamps, lockedW, lockedR, now, hi, hi, 1);
  }

  lemma {:induction false} SubsetSize(a: set<Id>, b: set<Id>)
    requires a <= b
    ensures |a| <= |b|
  {
    if a != {} {
      var x :| x in a;
      SubsetSize(a - {x}, b - {x});
    }
  }
}
