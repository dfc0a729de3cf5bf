/** Recordings opened to people outside the workspace, and what becomes of the shares reserved for an address
    once its owner has an account. */
module Shares {
  import opened Records

  datatype Target = ToUser(user: Id) | ToEmail(email: string)

  /** Shares are for viewing, or for viewing and editing. */
  datatype Share = Share(recording: Id, target: Target, edit: bool)

  type ShareTable = map<Id, Share>

  /** The two unique indexes: one share for a recording and a user, one for a recording and an address. */
  predicate OneEach(t: ShareTable) {
    forall a, b | a in t && b in t && t[a].recording == t[b].recording && t[a].target == t[b].target :: a == b
  }

  predicate HasDirect(t: ShareTable, recording: Id, user: Id) {
    exists a | a in t :: t[a].recording == recording && t[a].target == ToUser(user)
  }

  function Reserved(t: ShareTable, email: string): set<Id> {
    set a | a in t && t[a].target == ToEmail(email)
  }

  predicate Raised(t: ShareTable, done: set<Id>, recording: Id) {
    exists a | a in done :: a in t && t[a].recording == recording && t[a].edit
  }

  /** What the table `t` becomes once the reserved shares `done` belong to the user: a recording the user had no
      share of is now shared through the reserved row; otherwise the row the user had takes over the wider
      permission and the reserved row is gone. */
  function Claimed(t: ShareTable, done: set<Id>, user: Id): ShareTable {
    map a | a in t && !(a in done && HasDirect(t, t[a].recording, user)) ::
      if a in done then t[a].(target := ToUser(user))
      else if t[a].target == ToUser(user) && Raised(t, done, t[a].recording) then t[a].(edit := true)
      else t[a]
  }

  /* ---------- what claiming means ---------- */

  datatype Level = Nothing | View | Edit

  function Rank(l: Level): nat {
    match l
    case Nothing => 0
    case View => 1
    case Edit => 2
  }

  function Max(a: Level, b: Level): Level {
    if Rank(a) < Rank(b) then b else a
  }

  /** What the shares of the table allow the target to do with the recording. */
  function Allowed(t: ShareTable, recording: Id, target: Target): Level {
    if exists a | a in t :: t[a].recording == recording && t[a].target == target && t[a].edit then Edit
    else if exists a | a in t :: t[a].recording == recording && t[a].target == target then View
    else Nothing
  }

  lemma ClaimingKeepsOneEach(t: ShareTable, user: Id, email: string)
    requires OneEach(t)
    ensures OneEach(Claimed(t, Reserved(t, email), user))
  {
    var t' := Claimed(t, Reserved(t, email), user);
    forall a, b | a in t' && b in t' && t'[a].recording == t'[b].recording && t'[a].target == t'[b].target
      ensures a == b
    {
      if t[a].target != t[b].target {
        assert t'[a].target == ToUser(user);
        assert HasDirect(t, t[a].recording, user);
      }
    }
  }

  lemma AllowedIs(t: ShareTable, a: Id)
    requires OneEach(t) && a in t
    ensures Allowed(t, t[a].recording, t[a].target) == if t[a].edit then Edit else View
  {
  }

  /** Whoever else the shares are for sees no change. */
  lemma OthersUntouched(t: ShareTable, user: Id, email: string, recording: Id, target: Target)
    requires target != ToUser(user) && target != ToEmail(email)
    ensures Allowed(Claimed(t, Reserved(t, email), user), recording, target) == Allowed(t, recording, target)
  {
    var t' := Claimed(t, Reserved(t, email), user);
    forall a | a in t && t[a].target == target
      ensures a in t' && t'[a] == t[a]
    {
    }
  }

  lemma NothingStaysReserved(t: ShareTable, user: Id, email: string, recording: Id)
    ensures Reserved(Claimed(t, Reserved(t, email), user), email) == {}
    ensures Allowed(Claimed(t, Reserved(t, email), user), recording, ToEmail(email)) == Nothing
  {
  }

  /** Pointwise maximum: on every recording the user may afterwards do exactly the more of what was shared with
      the account and what was reserved for the address. */
  lemma ClaimingIsPointwiseMaximum(t: ShareTable, user: Id, email: string, recording: Id)
    requires OneEach(t)
    ensures Allowed(Claimed(t, Reserved(t, email), user), recording, ToUser(user))
         == Max(Allowed(t, recording, ToUser(user)), Allowed(t, recording, ToEmail(email)))
  {
    var done := Reserved(t, email);
    var t' := Claimed(t, done, user);
    ClaimingKeepsOneEach(t, user, email);
    if HasDirect(t, recording, user) {
      var a :| a in t && t[a].recording == recording && t[a].target == ToUser(user);
      assert a in t' && t'[a].edit == (t[a].edit || Raised(t, done, recording));
      AllowedIs(t, a);
      AllowedIs(t', a);
    } else if exists a | a in t :: t[a].recording == recording && t[a].target == ToEmail(email) {
      var a :| a in t && t[a].recording == recording && t[a].target == ToEmail(email);
      assert a in t' && t'[a] == t[a].(target := ToUser(user));
      AllowedIs(t, a);
      AllowedIs(t', a);
    }
  }

  /* ---------- one share after another ---------- */

  lemma RaisedByOneMore(t: ShareTable, done: set<Id>, a: Id, recording: Id)
    requires a in t
    ensures Raised(t, done + {a}, recording)
       <==> Raised(t, done, recording) || (t[a].recording == recording && t[a].edit)
  {
    if Raised(t, done, recording) {
      var b :| b in done && b in t && t[b].recording == recording && t[b].edit;
      assert b in done + {a};
    } else if t[a].recording == recording && t[a].edit {
      assert a in done + {a};
    }
  }

  /** Claiming up to here has left the reserved share `a` alone, and every share it made for the user of that
      recording was one before. */
  lemma NotYetClaimed(t: ShareTable, done: set<Id>, user: Id, email: string, a: Id)
    requires OneEach(t) && done <= Reserved(t, email) && a in Reserved(t, email) - done
    ensures var now := Claimed(t, done, user);
            && a in now && now[a] == t[a]
            && (forall d | d in now && now[d].recording == t[a].recording && now[d].target == ToUser(user) ::
                  d !in done && t[d] == now[d])
            && HasDirect(now, t[a].recording, user) == HasDirect(t, t[a].recording, user)
  {
    var now := Claimed(t, done, user);
    assert !Raised(t, done, t[a].recording);
    if HasDirect(t, t[a].recording, user) {
      var b :| b in t && t[b].recording == t[a].recording && t[b].target == ToUser(user);
      assert b in now;
    }
  }

  /** No share for the user yet: the reserved row becomes it. */
  lemma ClaimingHandsOver(t: ShareTable, done: set<Id>, user: Id, email: string, a: Id)
    requires OneEach(t) && done <= Reserved(t, email) && a in Reserved(t, email) - done
    requires !HasDirect(t, t[a].recording, user)
    ensures Claimed(t, done + {a}, user) == Claimed(t, done, user)[a := t[a].(target := ToUser(user))]
  {
    NotYetClaimed(t, done, user, email, a);
    var now, then' := Claimed(t, done, user), Claimed(t, done + {a}, user);
    assert then'.Keys == now.Keys;
    forall b | b in t && b != a && t[b].target == ToUser(user)
      ensures Raised(t, done + {a}, t[b].recording) == Raised(t, done, t[b].recording)
    {
      RaisedByOneMore(t, done, a, t[b].recording);
    }
  }

  /** A share for the user already: it takes over the wider permission, and the reserved row goes. */
  lemma ClaimingMerges(t: ShareTable, done: set<Id>, user: Id, email: string, a: Id, d: Id)
    requires OneEach(t) && done <= Reserved(t, email) && a in Reserved(t, email) - done
    requires d in t && t[d].recording == t[a].recording && t[d].target == ToUser(user)
    ensures Claimed(t, done + {a}, user) == Claimed(t, done, user)[d := t[d].(edit := t[d].edit || t[a].edit)] - {a}
  {
    NotYetClaimed(t, done, user, email, a);
    var now, then' := Claimed(t, done, user), Claimed(t, done + {a}, user);
    assert then'.Keys == now.Keys - {a};
    forall b | b in t && t[b].target == ToUser(user)
      ensures Raised(t, done + {a}, t[b].recording) == (Raised(t, done, t[b].recording) || (b == d && t[a].edit))
    {
      RaisedByOneMore(t, done, a, t[b].recording);
    }
  }
}
