/** One worker taking turns: the claim and the first commit of the stage are one transaction. */
module Turns {
  import opened Records
  import opened Quota
  import opened Protocol
  import opened Claim

  datatype Started = Started(db: Db, stamps: Stamps, found: Option<Id>, job: Option<Job>)

  /** What a worker has committed when it starts on its next recording. Finding nothing commits nothing, so the
      stamps of that search are rolled back; otherwise the gate's refusal or the first commit of the stage makes
      the stamps final. A worker that stops before has committed nothing either. */
  function StartNext(db: Db, stamps: Stamps, lockedW: set<Id>, lockedR: set<Id>, now: real, hiW: Id, quotas: Quotas,
        gateAt: real, started: real): Started
    requires Eligible(db.recordings) <= stamps.Keys && IdsBelow(db.recordings, stamps, hiW, db.nextId)
  {
    var (found, stamped) := ClaimNext(db.recordings, stamps, lockedW, lockedR, now, hiW, db.nextId);
    if found.None? then Started(db, stamps, None, None)
    else
      assert found.value in db.recordings && Claimable(db.recordings[found.value]) by {
        FoundIsWork(db.recordings, stamps, lockedW, lockedR, now, hiW, db.nextId);
      }
      var (db', job) := BeginJob(db, found.value, quotas, gateAt, started);
      Started(db', stamped, found, job)
  }

  /** A search that finds nothing leaves no trace, whatever it stamped on the way; one that finds a recording commits
      its stamps together with the first step of the stage. */
  lemma NothingFoundCommitsNothing(db: Db, stamps: Stamps, lockedW: set<Id>, lockedR: set<Id>, now: real, hiW: Id,
        quotas: Quotas, gateAt: real, started: real)
    requires Eligible(db.recordings) <= stamps.Keys && IdsBelow(db.recordings, stamps, hiW, db.nextId)
    ensures var s := StartNext(db, stamps, lockedW, lockedR, now, hiW, quotas, gateAt, started);
            && s.found == ClaimNext(db.recordings, stamps, lockedW, lockedR, now, hiW, db.nextId).0
            && (s.found.None? ==> s.db == db && s.stamps == stamps && s.job.None?)
            && (s.found.Some? ==>
                  && s.stamps == ClaimNext(db.recordings, stamps, lockedW, lockedR, now, hiW, db.nextId).1
                  && s.found.value in s.db.recordings
                  && s.db.recordings[s.found.value].status in {Transcribing, Summarizing, Failed, QuotaBlocked}
                  && (s.job.Some? <==> s.db.recordings[s.found.value].status in {Transcribing, Summarizing}))
  {
    if ClaimNext(db.recordings, stamps, lockedW, lockedR, now, hiW, db.nextId).0.Some? {
      FoundIsWork(db.recordings, stamps, lockedW, lockedR, now, hiW, db.nextId);
    }
  }

  /** One turn of the only worker. */
  datatype Turn = Turn(db: Db, stamps: Stamps, now: real, quotas: Quotas, gateAt: real, started: real)

  predicate TurnOk(t: Turn, hiW: Id) {
    Eligible(t.db.recordings) <= t.stamps.Keys && IdsBelow(t.db.recordings, t.stamps, hiW, t.db.nextId)
  }

  function Taken(t: Turn, hiW: Id): Started
    requires TurnOk(t, hiW)
  {
    StartNext(t.db, t.stamps, {}, {}, t.now, hiW, t.quotas, t.gateAt, t.started)
  }

  /** Between two turns the recordings may change in any way, the workspaces and their stamps may not, and time
      passes. */
  predicate TakesTurns(ts: seq<Turn>, hiW: Id) {
    && (forall k | 0 <= k < |ts| :: TurnOk(ts[k], hiW))
    && (forall k | 0 < k < |ts| :: ts[k].stamps == Taken(ts[k - 1], hiW).stamps && ts[k - 1].now < ts[k].now)
  }

  predicate Serves(t: Turn, hiW: Id, workspace: Id)
    requires TurnOk(t, hiW)
  {
    var found := Taken(t, hiW).found;
    found.Some? && found.value in t.db.recordings && t.db.recordings[found.value].workspace == workspace
  }

  function AllAhead(t: Turn, workspace: Id): set<Id>
    requires workspace in t.stamps
  {
    Ahead(t.stamps, t.stamps.Keys, workspace)
  }

  lemma EveryEligibleHasWork(recs: Table)
    ensures Working(recs, Eligible(recs), {}) == Eligible(recs)
  {
    forall w | w in Eligible(recs)
      ensures HasWork(recs, w, {})
    {
      var id :| id in recs && Claimable(recs[id]) && recs[id].workspace == w;
    }
  }

  /** With every row free the first eligible workspace in line is served, and its stamp alone is renewed; a sole
      one is served without a stamp. */
  lemma FirstInLineIsServed(t: Turn, hiW: Id, any: Id) returns (u: Id)
    requires TurnOk(t, hiW) && any in Eligible(t.db.recordings)
    ensures Serves(t, hiW, u) && u in Eligible(t.db.recordings)
    ensures u == any || Before(t.stamps, u, any)
    ensures Taken(t, hiW).stamps == if |Eligible(t.db.recordings)| == 1 then t.stamps else t.stamps[u := Some(t.now)]
  {
    var recs := t.db.recordings;
    var open := Looked(recs, {});
    EveryEligibleHasWork(recs);
    assert open == Eligible(recs);
    u := FirstExists(t.stamps, open, open, hiW, any);
    NoneAhead(t.stamps, open, u, any);
    ClaimFindsExactly(recs, t.stamps, {}, {}, t.now, hiW, t.db.nextId, u);
    if |open| != 1 {
      SubsetSize({u}, open);
    }
  }

  /** Where all have work, the first has none ahead and is alone in being stamped. */
  lemma NoneAhead(stamps: Stamps, open: set<Id>, u: Id, any: Id)
    requires open <= stamps.Keys && First(stamps, open, open, u) && any in open
    ensures Ahead(stamps, open, u) == {} && Ahead(stamps, open, u) + {u} == {u}
    ensures u == any || Before(stamps, u, any)
    ensures forall now :: Restamped(stamps, {u}, now) == stamps[u := Some(now)]
  {
    assert Ahead(stamps, open, u) <= open;
    BeforeIsTotal(stamps, u, any);
  }

  /** A turn that serves somebody else takes one workspace from ahead of this one and puts none there. */
  lemma TurnAdvances(t: Turn, workspace: Id, hiW: Id)
    requires TurnOk(t, hiW) && workspace in Eligible(t.db.recordings) && StampedBefore(t.stamps, t.now)
    requires !Serves(t, hiW, workspace)
    ensures var after := Taken(t, hiW).stamps;
            && after.Keys == t.stamps.Keys
            && (forall later | later > t.now :: StampedBefore(after, later))
            && Ahead(after, after.Keys, workspace) < AllAhead(t, workspace)
  {
    var u := FirstInLineIsServed(t, hiW, workspace);
    assert u in AllAhead(t, workspace);
    if |Eligible(t.db.recordings)| == 1 {
      OnlyOne(Eligible(t.db.recordings), workspace);
    }
    var after := t.stamps[u := Some(t.now)];
    assert u !in Ahead(after, after.Keys, workspace);
  }

  /** From the `n`-th turn on. */
  lemma {:induction false} ServedOnceAllAheadAre(ts: seq<Turn>, n: nat, workspace: Id, hiW: Id)
    requires TakesTurns(ts, hiW) && n < |ts| && StampedBefore(ts[n].stamps, ts[n].now)
    requires forall k | n <= k < |ts| :: workspace in Eligible(ts[k].db.recordings)
    requires |ts| - n > |AllAhead(ts[n], workspace)|
    ensures exists k | n <= k < |ts| :: Serves(ts[k], hiW, workspace)
    decreases |ts| - n
  {
    if !Serves(ts[n], hiW, workspace) {
      TurnAdvances(ts[n], workspace, hiW);
      FewerAhead(Taken(ts[n], hiW).stamps, ts[n], workspace);
      ServedOnceAllAheadAre(ts, n + 1, workspace, hiW);
    }
  }

  lemma FewerAhead(after: Stamps, t: Turn, workspace: Id)
    requires workspace in t.stamps && workspace in after
    requires Ahead(after, after.Keys, workspace) < AllAhead(t, workspace)
    ensures |Ahead(after, after.Keys, workspace)| < |AllAhead(t, workspace)|
  {
    var fewer, more := Ahead(after, after.Keys, workspace), AllAhead(t, workspace);
    var gone :| gone in more && gone !in fewer;
    SubsetSize(fewer, more - {gone});
  }

  /** A workspace that keeps having work is served within as many turns as there are workspaces. */
  lemma BoundedWaiting(ts: seq<Turn>, workspace: Id, hiW: Id)
    requires TakesTurns(ts, hiW) && |ts| > 0 && StampedBefore(ts[0].stamps, ts[0].now)
    requires |ts| >= |ts[0].stamps|
    requires forall k | 0 <= k < |ts| :: workspace in Eligible(ts[k].db.recordings)
    ensures exists k | 0 <= k < |ts| :: Serves(ts[k], hiW, workspace)
  {
    SubsetSize(AllAhead(ts[0], workspace), ts[0].stamps.Keys - {workspace});
    assert |ts[0].stamps.Keys - {workspace}| < |ts[0].stamps|;
    ServedOnceAllAheadAre(ts, 0, workspace, hiW);
  }
}
