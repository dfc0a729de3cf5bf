/** What each step does to memberships, roles and invites: who gets in, as what, and by which invite. */
module Members {
  import opened Records
  import opened Tenancy

  /** Everything about the invite but its uses and its revocation. */
  predicate SameTerms(a: Invite, b: Invite) {
    a == b.(uses := a.uses, revoked := a.revoked)
  }

  /** No membership but this one differs. */
  predicate OnlyMember(a: House, b: House, m: (Id, Id)) {
    && (forall n | n in a.members && n != m :: n in b.members && b.members[n] == a.members[n])
    && (forall n | n in b.members && n != m :: n in a.members)
  }

  predicate OnlyInvite(a: House, b: House, id: Id) {
    a.invites.Keys == b.invites.Keys && forall i | i in a.invites && i != id :: b.invites[i] == a.invites[i]
  }

  predicate OnlyUser(a: House, b: House, user: Id) {
    a.users.Keys == b.users.Keys && forall u | u in a.users && u != user :: b.users[u] == a.users[u]
  }

  /* ---------- invites ---------- */

  /** The invite is there and live, leads to a workspace, and is for anybody or for just this user. */
  predicate Admits(h: House, id: Id, user: Id, now: real) {
    && id in h.invites && user in h.users && Live(h.invites[id], now) && h.invites[id].workspace in h.workspaces
    && (h.invites[id].email == None || h.invites[id].email == Some(h.users[user].email))
  }

  /** Whoever takes an invite gets its role, unless they had one there already, and then the invite is not used up.
      A default workspace is set only for those without. */
  lemma AcceptingJoins(h: House, id: Id, user: Id, now: real)
    ensures var h' := Accepted(h, id, user, now);
            if !Admits(h, id, user, now) then h' == h
            else
              var i, m := h.invites[id], (h.invites[id].workspace, user);
              && h'.workspaces == h.workspaces
              && OnlyMember(h, h', m) && m in h'.members
              && h'.members[m] == (if m in h.members then h.members[m] else i.role)
              && OnlyInvite(h, h', id) && SameTerms(i, h'.invites[id]) && h'.invites[id].revoked == i.revoked
              && h'.invites[id].uses == i.uses + (if m in h.members then 0 else 1)
              && OnlyUser(h, h', user) && h'.users[user].email == h.users[user].email
              && h'.users[user].homeId
                 == if h.users[user].homeId.Some? then h.users[user].homeId else Some(i.workspace)
  {
  }

  /** Neither revoked nor expired nor used up. */
  predicate Live(i: Invite, now: real) {
    !i.revoked && (i.expiresAt == None || now < i.expiresAt.value) && i.uses < i.maxUses
  }

  /** The invite is for this address and workspace, and can still be used. */
  predicate Reserves(h: House, id: Id, workspace: Id, email: string, now: real) {
    && id in h.invites && h.invites[id].workspace == workspace && h.invites[id].email == Some(email)
    && Live(h.invites[id], now)
  }

  /** The first of the listed invites that reserves a place there. */
  predicate FirstFor(h: House, order: seq<Id>, k: nat, workspace: Id, email: string, now: real)
    requires k < |order|
  {
    && Reserves(h, order[k], workspace, email, now)
    && forall j | 0 <= j < k :: !Reserves(h, order[j], workspace, email, now)
  }

  predicate NoneFor(h: House, order: seq<Id>, workspace: Id, email: string, now: real) {
    forall k | 0 <= k < |order| :: !Reserves(h, order[k], workspace, email, now)
  }

  /** The terms of invites stay, and only those of workspaces the user belongs to are used up further. */
  predicate InvitesKept(h: House, h': House, user: Id) {
    && h'.users == h.users && h'.workspaces == h.workspaces && h'.invites.Keys == h.invites.Keys
    && forall i | i in h.invites ::
      && SameTerms(h.invites[i], h'.invites[i]) && h'.invites[i].revoked == h.invites[i].revoked
      && (h'.invites[i].uses == h.invites[i].uses || Belongs(h', h.invites[i].workspace, user))
  }

  lemma {:induction false} ClaimingKeepsInvites(h: House, order: seq<Id>, user: Id, now: real)
    requires user in h.users
    ensures InvitesKept(h, ClaimedInvites(h, order, user, now), user)
  {
    if order != [] {
      ClaimingKeepsInvites(h, order[..|order| - 1], user, now);
    }
  }

  /** A membership after a claim: as it was, or none, or the user's in a workspace that a listed invite is for, with the
      role of the first such. */
  predicate JoinedBy(h: House, order: seq<Id>, user: Id, now: real, h': House, m: (Id, Id))
    requires user in h.users
  {
    var email := h.users[user].email;
    if m in h.members then m in h'.members && h'.members[m] == h.members[m]
    else if m.1 != user || NoneFor(h, order, m.0, email, now) then m !in h'.members
    else m in h'.members && exists k | 0 <= k < |order| ::
           FirstFor(h, order, k, m.0, email, now) && h.invites[order[k]].role == h'.members[m]
  }

  /** Claiming reserved invites gets the user into just the workspaces that a listed one is for, and changes no role and
      nobody else's membership. */
  lemma {:induction false} ClaimingJoins(h: House, order: seq<Id>, user: Id, now: real, m: (Id, Id))
    requires user in h.users
    ensures JoinedBy(h, order, user, now, ClaimedInvites(h, order, user, now), m)
  {
    if order != [] {
      var rest, id := order[..|order| - 1], order[|order| - 1];
      ClaimingJoins(h, rest, user, now, m);
      ClaimingKeepsInvites(h, rest, user, now);
      ClaimingOneMore(h, order, user, now, m);
    }
  }

  /** As long as the user is outside, an invite for there reserves what it did. */
  lemma StillReserves(h: House, before: House, id: Id, workspace: Id, user: Id, now: real)
    requires user in h.users && InvitesKept(h, before, user) && !Belongs(before, workspace, user)
    ensures var email := h.users[user].email;
            Reserves(before, id, workspace, email, now) <==> Reserves(h, id, workspace, email, now)
  {
  }

  lemma RedeemingJoins(before: House, id: Id, user: Id, m: (Id, Id))
    requires id in before.invites
    ensures var after := Redeemed(before, id, user);
            if m in before.members then m in after.members && after.members[m] == before.members[m]
            else if m == (before.invites[id].workspace, user)
            then m in after.members && after.members[m] == before.invites[id].role
            else m !in after.members
  {
  }

  lemma ClaimingUnfolds(h: House, order: seq<Id>, user: Id, now: real, m: (Id, Id))
    requires user in h.users && order != []
    requires InvitesKept(h, ClaimedInvites(h, order[..|order| - 1], user, now), user)
    ensures var before := ClaimedInvites(h, order[..|order| - 1], user, now);
            var after := ClaimedInvites(h, order, user, now);
            var id := order[|order| - 1];
            if m in before.members then m in after.members && after.members[m] == before.members[m]
            else if m.1 == user && Reserves(h, id, m.0, h.users[user].email, now)
            then m in after.members && after.members[m] == h.invites[id].role
            else m !in after.members
  {
    var before, id := ClaimedInvites(h, order[..|order| - 1], user, now), order[|order| - 1];
    if id in before.invites {
      RedeemingJoins(before, id, user, m);
    }
    if m.1 == user && m !in before.members {
      StillReserves(h, before, id, m.0, user, now);
    }
  }

  lemma FirstStays(h: House, order: seq<Id>, workspace: Id, email: string, now: real, role: Role)
    requires order != []
    requires exists k | 0 <= k < |order| - 1 ::
               FirstFor(h, order[..|order| - 1], k, workspace, email, now) && h.invites[order[k]].role == role
    ensures exists k | 0 <= k < |order| ::
              FirstFor(h, order, k, workspace, email, now) && h.invites[order[k]].role == role
    ensures !NoneFor(h, order, workspace, email, now)
  {
    var k :| 0 <= k < |order| - 1
          && FirstFor(h, order[..|order| - 1], k, workspace, email, now) && h.invites[order[k]].role == role;
    assert FirstFor(h, order, k, workspace, email, now);
    assert Reserves(h, order[k], workspace, email, now);
  }

  lemma ClaimingOneMore(h: House, order: seq<Id>, user: Id, now: real, m: (Id, Id))
    requires user in h.users && order != []
    requires var before := ClaimedInvites(h, order[..|order| - 1], user, now);
             JoinedBy(h, order[..|order| - 1], user, now, before, m) && InvitesKept(h, before, user)
    ensures JoinedBy(h, order, user, now, ClaimedInvites(h, order, user, now), m)
  {
    var n, email := |order| - 1, h.users[user].email;
    ClaimingUnfolds(h, order, user, now, m);
    if m !in h.members && m.1 == user {
      OneMoreReserves(h, order, m.0, email, now);
      if !NoneFor(h, order[..n], m.0, email, now) {
        FirstStays(h, order, m.0, email, now, ClaimedInvites(h, order[..n], user, now).members[m]);
      }
    }
  }

  lemma OneMoreReserves(h: House, order: seq<Id>, workspace: Id, email: string, now: real)
    requires order != []
    ensures NoneFor(h, order, workspace, email, now)
       <==> && NoneFor(h, order[..|order| - 1], workspace, email, now)
            && !Reserves(h, order[|order| - 1], workspace, email, now)
    ensures (&& NoneFor(h, order[..|order| - 1], workspace, email, now)
             && Reserves(h, order[|order| - 1], workspace, email, now)) ==>
              FirstFor(h, order, |order| - 1, workspace, email, now)
  {
    assert forall k | 0 <= k < |order| - 1 :: order[..|order| - 1][k] == order[k];
  }

  /* ---------- every step ---------- */

  /** One of the listed invites is for this address, leads there, can be used and gives this role. */
  predicate ByInvite(h: House, order: seq<Id>, email: string, now: real, workspace: Id, role: Role) {
    exists k | 0 <= k < |order| :: Reserves(h, order[k], workspace, email, now) && h.invites[order[k]].role == role
  }

  /** How a membership comes about: as the owner of a new workspace, or by an invite and with its role. */
  predicate Gains(h: House, e: Step, m: (Id, Id), role: Role) {
    match e
    case SignUp(user, email, workspace, approved, order, now) =>
      m.1 == user && ((m.0 == workspace && role == Owner) || (approved && ByInvite(h, order, email, now, m.0, role)))
    case Found(user, workspace, _, _) => m == (workspace, user) && role == Owner
    case Accept(id, user, now) =>
      Admits(h, id, user, now) && m == (h.invites[id].workspace, user) && role == h.invites[id].role
    case Approve(user, workspace, _, order, now) =>
      && m.1 == user && user in h.users
      && ((m.0 == workspace && role == Owner) || ByInvite(h, order, h.users[user].email, now, m.0, role))
    case _ => false
  }

  /** Only this user is a member, it is personal, and it has neither recordings nor history. */
  predicate Empty(h: House, busy: set<Id>, w: Id, user: Id) {
    && w in h.workspaces && h.workspaces[w] == Personal && w !in busy
    && (w, user) in h.members && forall m | m in h.members && m.0 == w :: m.1 == user
  }

  /** How one ends: by removal, never an owner's, or with its workspace, which a rejection dropped. */
  predicate Loses(h: House, e: Step, m: (Id, Id))
    requires m in h.members
  {
    match e
    case Remove(workspace, user, next) =>
      && m == (workspace, user) && h.members[m] != Owner
      && user in h.users && AnyMembership(h, user, Some(workspace), next)
    case Reject(user, busy) => Empty(h, busy, m.0, user)
    case _ => false
  }

  /** And how its role changes: somebody who is not the owner is made what is asked for, short of owner. */
  predicate Alters(h: House, e: Step, m: (Id, Id))
    requires m in h.members
  {
    e.SetRole? && m == (e.workspace, e.user) && e.role != Owner && h.members[m] != Owner
  }

  lemma ClaimStepJoins(h: House, h1: House, order: seq<Id>, user: Id, now: real, w: Id)
    requires user in h1.users && h1.invites == h.invites
    ensures var h' := ClaimedInvites(h1, order, user, now);
            && h'.users == h1.users && h'.workspaces == h1.workspaces
            && (Belongs(h', w, user) <==> Belongs(h1, w, user) || !NoneFor(h, order, w, h1.users[user].email, now))
            && (Belongs(h1, w, user) ==> h'.members[(w, user)] == h1.members[(w, user)])
  {
    ClaimingKeepsInvites(h1, order, user, now);
    ClaimingJoins(h1, order, user, now, (w, user));
    var email := h1.users[user].email;
    assert forall id :: Reserves(h1, id, w, email, now) <==> Reserves(h, id, w, email, now);
  }

  lemma ClaimStepMembers(h: House, h1: House, order: seq<Id>, user: Id, now: real, m: (Id, Id))
    requires user in h1.users && h1.invites == h.invites
    ensures var h' := ClaimedInvites(h1, order, user, now);
            && (m in h1.members ==> m in h'.members && h'.members[m] == h1.members[m])
            && (m !in h1.members && m in h'.members ==>
                  m.1 == user && ByInvite(h, order, h1.users[user].email, now, m.0, h'.members[m]))
  {
    ClaimingJoins(h1, order, user, now, m);
    var h' := ClaimedInvites(h1, order, user, now);
    if m !in h1.members && m in h'.members {
      var email := h1.users[user].email;
      var k :| 0 <= k < |order|
            && FirstFor(h1, order, k, m.0, email, now) && h1.invites[order[k]].role == h'.members[m];
      assert Reserves(h, order[k], m.0, email, now);
    }
  }

  lemma SignUpMembers(h: House, e: Step, m: (Id, Id))
    requires Kept(h) && e.SignUp?
    ensures var h' := Next(h, e);
            if m in h.members then m in h'.members && h'.members[m] == h.members[m]
            else m in h'.members ==> Gains(h, e, m, h'.members[m])
  {
    if e.user !in h.users && e.workspace !in h.workspaces {
      var h1 := Founded(h.(users := h.users[e.user := User(e.email, None)]), e.user, e.workspace, Personal, true);
      ClaimStepMembers(h, h1, e.order, e.user, e.now, m);
    }
  }

  lemma ApproveMembers(h: House, e: Step, m: (Id, Id))
    requires Kept(h) && e.Approve?
    ensures var h' := Next(h, e);
            if m in h.members then m in h'.members && h'.members[m] == h.members[m]
            else m in h'.members ==> Gains(h, e, m, h'.members[m])
  {
    if e.user in h.users && AnyMembership(h, e.user, None, e.next) {
      ClaimStepMembers(h, Homed(h, e.user, e.workspace, e.next), e.order, e.user, e.now, m);
    }
  }

  lemma OutgoingMembers(h: House, e: Step, m: (Id, Id))
    requires e.Remove? || e.Reject? || e.SetRole?
    ensures var h' := Next(h, e);
            if m in h.members then
              && (m !in h'.members <==> Loses(h, e, m))
              && (m in h'.members ==> h'.members[m] == if Alters(h, e, m) then e.role else h.members[m])
            else m !in h'.members
  {
  }

  /** Over every step, these are the ways a membership is gained, lost or changed, and there are no others. */
  lemma StepMovesMembers(h: House, e: Step, m: (Id, Id))
    requires Kept(h)
    ensures var h' := Next(h, e);
            if m in h.members then
              && (m !in h'.members <==> Loses(h, e, m))
              && (m in h'.members ==> h'.members[m] == if Alters(h, e, m) then e.role else h.members[m])
            else m in h'.members ==> Gains(h, e, m, h'.members[m])
  {
    match e {
      case SignUp(_, _, _, _, _, _) => SignUpMembers(h, e, m);
      case Approve(_, _, _, _, _) => ApproveMembers(h, e, m);
      case Remove(_, _, _) => OutgoingMembers(h, e, m);
      case Reject(_, _) => OutgoingMembers(h, e, m);
      case SetRole(_, _, _) => OutgoingMembers(h, e, m);
      case _ =>
    }
  }

  /* ---------- founding, removing, inviting ---------- */

  /** A new workspace is of the kind asked for and has its founder as owner and only member; it becomes the founder's
      default if that was asked for, and nothing else changes. */
  lemma FoundingMakes(h: House, user: Id, workspace: Id, kind: Kind, home: bool)
    requires Kept(h) && user in h.users && workspace !in h.workspaces
    ensures var h' := Next(h, Found(user, workspace, kind, home));
            && h'.workspaces == h.workspaces[workspace := kind]
            && OnlyMember(h, h', (workspace, user))
            && (forall m | m in h'.members && m.0 == workspace :: m.1 == user && h'.members[m] == Owner)
            && Belongs(h', workspace, user)
            && OnlyUser(h, h', user) && h'.users[user].email == h.users[user].email
            && h'.users[user].homeId == (if home then Some(workspace) else h.users[user].homeId)
            && h'.invites == h.invites
  {
  }

  /** Whoever signs up under a new name is there with the address given and a personal workspace as default; the invites
      reserved for the address are claimed exactly if the account is approved already. */
  lemma SigningUpMakes(h: House, user: Id, email: string, workspace: Id, approved: bool, order: seq<Id>, now: real,
        w: Id)
    requires Kept(h) && user !in h.users && workspace !in h.workspaces && w != workspace
    ensures var h' := Next(h, SignUp(user, email, workspace, approved, order, now));
            && h'.users == h.users[user := User(email, Some(workspace))]
            && h'.workspaces == h.workspaces[workspace := Personal]
            && (workspace, user) in h'.members && h'.members[(workspace, user)] == Owner
            && (!approved ==> h'.invites == h.invites)
            && (Belongs(h', w, user) <==> approved && !NoneFor(h, order, w, email, now))
  {
    var h1 := Founded(h.(users := h.users[user := User(email, None)]), user, workspace, Personal, true);
    if approved {
      ClaimStepJoins(h, h1, order, user, now, workspace);
      ClaimStepJoins(h, h1, order, user, now, w);
    }
  }

  /** Whoever is approved keeps every membership; without any they get a personal workspace of their own as default, and
      without a default one of those they have. */
  lemma HomingMakes(h: House, user: Id, workspace: Id, next: Option<Id>)
    requires Kept(h) && user in h.users && workspace !in h.workspaces && AnyMembership(h, user, None, next)
    ensures var h' := Homed(h, user, workspace, next);
            && OnlyUser(h, h', user) && h'.users[user].email == h.users[user].email && h'.invites == h.invites
            && if exists m | m in h.members :: m.1 == user
               then && h'.members == h.members && h'.workspaces == h.workspaces
                    && h'.users[user].homeId == (if h.users[user].homeId.Some? then h.users[user].homeId else next)
               else && h'.workspaces == h.workspaces[workspace := Personal]
                    && h'.members == h.members[(workspace, user) := Owner]
                    && h'.users[user].homeId == Some(workspace)
  {
  }

  /** An approval gives the home above and claims the invites reserved for the address: in any other workspace the user
      is a member afterwards exactly if they were before or a listed invite was for it. */
  lemma ApprovingMakes(h: House, user: Id, workspace: Id, next: Option<Id>, order: seq<Id>, now: real, w: Id)
    requires Kept(h) && user in h.users && workspace !in h.workspaces && AnyMembership(h, user, None, next)
    requires w != workspace
    ensures var h' := Next(h, Approve(user, workspace, next, order, now));
            && h'.users == Homed(h, user, workspace, next).users
            && (Belongs(h', w, user) <==>
                  Belongs(h, w, user) || !NoneFor(h, order, w, h.users[user].email, now))
  {
    var h1 := Homed(h, user, workspace, next);
    HomingMakes(h, user, workspace, next);
    ClaimStepJoins(h, h1, order, user, now, w);
  }

  /** A rejection drops the user's empty workspaces with their memberships and invites, and they are nobody's default
      any more. Everything else stays. */
  lemma RejectingDrops(h: House, user: Id, busy: set<Id>, w: Id, m: (Id, Id), i: Id, u: Id)
    ensures var h' := Next(h, Reject(user, busy));
            && (w in h'.workspaces <==> w in h.workspaces && !Empty(h, busy, w, user))
            && (w in h'.workspaces ==> h'.workspaces[w] == h.workspaces[w])
            && (m in h'.members <==> m in h.members && !Empty(h, busy, m.0, user))
            && (m in h'.members ==> h'.members[m] == h.members[m])
            && (i in h'.invites <==> i in h.invites && !Empty(h, busy, h.invites[i].workspace, user))
            && (i in h'.invites ==> h'.invites[i] == h.invites[i])
            && (u in h'.users <==> u in h.users)
            && (u in h.users ==>
                  && h'.users[u].email == h.users[u].email
                  && h'.users[u].homeId == if && h.users[u].homeId.Some?
                                              && Empty(h, busy, h.users[u].homeId.value, user)
                                           then None else h.users[u].homeId)
  {
  }

  /** Removing a member revokes the invites there for that address, no others, and changes the user's default exactly
      if it was this workspace, to the membership found. */
  lemma RemovingRevokes(h: House, workspace: Id, user: Id, next: Option<Id>, id: Id)
    requires user in h.users && Belongs(h, workspace, user) && h.members[(workspace, user)] != Owner
    ensures var h' := Removed(h, workspace, user, next);
            && h'.workspaces == h.workspaces && OnlyMember(h, h', (workspace, user)) && !Belongs(h', workspace, user)
            && (id in h.invites <==> id in h'.invites)
            && (id in h.invites ==>
                  && SameTerms(h.invites[id], h'.invites[id]) && h'.invites[id].uses == h.invites[id].uses
                  && (h'.invites[id].revoked <==>
                      || h.invites[id].revoked
                      || (h.invites[id].workspace == workspace && h.invites[id].email == Some(h.users[user].email))))
            && OnlyUser(h, h', user) && h'.users[user].email == h.users[user].email
            && h'.users[user].homeId == (if h.users[user].homeId == Some(workspace) then next else h.users[user].homeId)
  {
  }

  /** An invite is issued as asked exactly if its key is new, its workspace there and its terms lawful; a revoked one is
      revoked and otherwise as it was. No other invite changes, and nobody's membership. */
  lemma InvitingMoves(h: House, id: Id, invite: Invite)
    ensures var h' := Next(h, Issue(id, invite));
            && h'.(invites := h.invites) == h
            && h'.invites == (if && id !in h.invites && invite.workspace in h.workspaces && invite.role != Owner
                                 && invite.maxUses >= 1 && invite.uses == 0 && !invite.revoked
                              then h.invites[id := invite] else h.invites)
    ensures var h' := Next(h, Revoke(id));
            && h'.(invites := h.invites) == h
            && (if id in h.invites
                then && OnlyInvite(h, h', id) && h'.invites[id].revoked && SameTerms(h.invites[id], h'.invites[id])
                     && h'.invites[id].uses == h.invites[id].uses
                else h'.invites == h.invites)
  {
  }
}
