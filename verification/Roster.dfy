/** The tenancy operations as the program runs them, row by row over the tables, each against its description. */
module Roster {
  import opened Records
  import opened Shares
  import opened Tenancy

  datatype Outcome = Settled | NotAMember | OwnerStays | OwnershipStays

  const MAX_DAYS := 3650
  const DAY := 86400.0

  function Expiry(days: Option<int>, now: real): Option<real> {
    if days.Some? then Some(now + days.value as real * DAY) else None
  }

  class Directory {
    var users: map<Id, User>
    var workspaces: map<Id, Kind>
    var members: map<(Id, Id), Role>
    var invites: map<Id, Invite>
    var shares: ShareTable

    constructor ()
      ensures View() == INITIAL && shares == map[]
    {
      users, workspaces, members, invites, shares := map[], map[], map[], map[], map[];
    }

    ghost function View(): House
      reads this
    {
      House(users, workspaces, members, invites)
    }

    method JoinWorkspace(workspace: Id, user: Id, role: Role) returns (joined: bool)
      modifies this`members
      ensures joined <==> (workspace, user) !in old(members)
      ensures members == if joined then old(members)[(workspace, user) := role] else old(members)
    {
      joined := (workspace, user) !in members;
      if joined {
        members := members[(workspace, user) := role];
      }
    }

    /** One reserved share: the user's own share of the recording, if there is one, takes over. */
    method ClaimShare(user: Id, a: Id) returns (direct: Option<Id>)
      requires a in shares && shares[a].target != ToUser(user)
      modifies this`shares
      ensures direct.None? ==>
                && !HasDirect(old(shares), old(shares)[a].recording, user)
                && shares == old(shares)[a := old(shares)[a].(target := ToUser(user))]
      ensures direct.Some? ==>
                && direct.value in old(shares)
                && var d := old(shares)[direct.value];
                && d.recording == old(shares)[a].recording
                && d.target == ToUser(user)
                && shares == old(shares)[direct.value := d.(edit := d.edit || old(shares)[a].edit)] - {a}
    {
      var reserved := shares[a];
      if d :| d in shares && shares[d].recording == reserved.recording && shares[d].target == ToUser(user) {
        if reserved.edit {
          shares := shares[d := shares[d].(edit := true)];
        }
        assert shares == old(shares)[d := old(shares)[d].(edit := old(shares)[d].edit || reserved.edit)];
        shares := shares - {a};
        direct := Some(d);
      } else {
        shares := shares[a := reserved.(target := ToUser(user))];
        direct := None;
      }
    }

    /** `listed` are the shares reserved for the user's address, in the order the query happens to return. */
    method ClaimShares(user: Id, listed: seq<Id>)
      requires user in users && OneEach(shares)
      requires forall a :: a in listed <==> a in Reserved(shares, users[user].email)
      requires forall i, j | 0 <= i < j < |listed| :: listed[i] != listed[j]
      modifies this`shares
      ensures shares == Claimed(old(shares), Reserved(old(shares), users[user].email), user)
    {
      ghost var before, email := shares, users[user].email;
      ghost var done: set<Id> := {};
      assert Claimed(before, {}, user) == before;
      for k := 0 to |listed|
        invariant forall a :: a in done <==> a in listed[..k]
        invariant shares == Claimed(before, done, user)
      {
        var a := listed[k];
        assert listed[..k + 1] == listed[..k] + [a];
        NotYetClaimed(before, done, user, email, a);
        var direct := ClaimShare(user, a);
        ClaimingOneMore(before, done, user, email, a, direct);
        done := done + {a};
      }
      assert listed[..|listed|] == listed;
      assert done == Reserved(before, email);
    }

    /** Joins as the invite says, and counts a use when that makes a new member. */
    method Redeem(id: Id, user: Id) returns (joined: bool)
      requires id in invites
      modifies this`members, this`invites
      ensures View() == Redeemed(old(View()), id, user)
      ensures |members| == |old(members)| + if joined then 1 else 0
    {
      var invite := invites[id];
      joined := JoinWorkspace(invite.workspace, user, invite.role);
      if joined {
        invites := invites[id := invite.(uses := invite.uses + 1)];
      }
    }

    method ClaimInvites(user: Id, listed: seq<Id>, now: real) returns (joined: nat)
      requires user in users
      modifies this`members, this`invites
      ensures View() == ClaimedInvites(old(View()), listed, user, now)
      ensures joined == |members| - |old(members)|
    {
      joined := 0;
      for k := 0 to |listed|
        invariant View() == ClaimedInvites(old(View()), listed[..k], user, now)
        invariant joined == |members| - |old(members)|
      {
        var id := listed[k];
        assert listed[..k + 1][..k] == listed[..k];
        if id in invites && invites[id].email == Some(users[user].email) {
          var invite := invites[id];
          if !invite.revoked && !(invite.expiresAt.Some? && invite.expiresAt.value <= now)
                && invite.uses < invite.maxUses {
            var isNew := Redeem(id, user);
            joined := joined + if isNew then 1 else 0;
          }
        }
      }
      assert listed[..|listed|] == listed;
    }

    method ClaimPending(user: Id, reserved: seq<Id>, offered: seq<Id>, now: real) returns (claimed: nat, joined: nat)
      requires user in users && OneEach(shares)
      requires forall a :: a in reserved <==> a in Reserved(shares, users[user].email)
      requires forall i, j | 0 <= i < j < |reserved| :: reserved[i] != reserved[j]
      modifies this`shares, this`members, this`invites
      ensures shares == Claimed(old(shares), Reserved(old(shares), users[user].email), user)
      ensures View() == ClaimedInvites(old(View()), offered, user, now)
      ensures claimed == |Reserved(old(shares), users[user].email)|
      ensures joined == |members| - |old(members)|
    {
      DistinctSize(reserved);
      assert Reserved(shares, users[user].email) == IdSet(reserved);
      ClaimShares(user, reserved);
      joined := ClaimInvites(user, offered, now);
      claimed := |reserved|;
    }

    method AcceptInvite(id: Id, user: Id, now: real) returns (taken: bool)
      requires user in users
      modifies this`members, this`invites, this`users
      ensures taken <==> Usable(old(View()), id, user, now)
      ensures View() == Accepted(old(View()), id, user, now)
    {
      taken := id in invites && !invites[id].revoked
        && !(invites[id].expiresAt.Some? && invites[id].expiresAt.value <= now)
        && invites[id].uses < invites[id].maxUses
        && !(invites[id].email.Some? && invites[id].email.value != users[user].email)
        && invites[id].workspace in workspaces;
      if taken {
        var workspace := invites[id].workspace;
        var _ := Redeem(id, user);
        if users[user].homeId.None? {
          users := users[user := users[user].(homeId := Some(workspace))];
        }
      }
    }

    /** `id` is the fresh key of the row; the expiry is counted in days from `now`. */
    method CreateInvite(id: Id, workspace: Id, role: Role, email: Option<string>, days: Option<int>, maxUses: int,
          now: real)
      returns (issued: bool)
      requires id !in invites && workspace in workspaces
      modifies this`invites
      ensures issued <==> role != Owner && (days.Some? ==> 1 <= days.value <= 3650) && maxUses >= 1
      ensures issued ==>
                && View() == old(View()).(invites := invites)
                && invites.Keys == old(invites).Keys + {id}
                && (forall i | i in old(invites) :: invites[i] == old(invites)[i])
                && var i := invites[id];
                && i.email == email && i.workspace == workspace && i.role == role
                && i.maxUses == maxUses && i.uses == 0 && !i.revoked
                && (days.Some? <==> i.expiresAt.Some?)
                && (days.Some? ==> i.expiresAt.value == now + days.value as real * 86400.0)
      ensures !issued ==> View() == old(View())
    {
      if role == Owner || (days.Some? && !(1 <= days.value <= MAX_DAYS)) || maxUses < 1 {
        return false;
      }
      invites := invites[id := Invite(email, workspace, role, Expiry(days, now), maxUses, 0, false)];
      issued := true;
    }

    /** `newId` is the key of a workspace to be made; `next` is the membership found when there is one. */
    method EnsureHomeWorkspace(user: Id, newId: Id, next: Option<Id>) returns (made: bool)
      requires user in users && newId !in workspaces
      modifies this`users, this`workspaces, this`members
      ensures View() == Homed(old(View()), user, newId, next)
      ensures made <==> forall m | m in old(members) :: m.1 != user
    {
      if exists m | m in members :: m.1 == user {
        if users[user].homeId.None? {
          users := users[user := users[user].(homeId := next)];
        }
        return false;
      }
      workspaces := workspaces[newId := Personal];
      members := members[(newId, user) := Owner];
      users := users[user := users[user].(homeId := Some(newId))];
      made := true;
    }

    method SetMemberRole(workspace: Id, user: Id, role: Role) returns (outcome: Outcome)
      modifies this`members
      ensures View() == RoleSet(old(View()), workspace, user, role)
      ensures outcome.OwnershipStays? <==> role == Owner
      ensures outcome.NotAMember? <==> role != Owner && (workspace, user) !in old(members)
      ensures outcome.Settled? ==> (workspace, user) in members && members[(workspace, user)] == role
    {
      if role == Owner {
        return OwnershipStays;
      }
      if (workspace, user) !in members {
        return NotAMember;
      }
      if members[(workspace, user)] == Owner {
        return OwnerStays;
      }
      members := members[(workspace, user) := role];
      outcome := Settled;
    }

    /** `listed` are the invites to the workspace for the user's address that are not revoked; `next` is the
        membership found for the user afterwards. */
    method RemoveMember(workspace: Id, user: Id, listed: seq<Id>, next: Option<Id>) returns (outcome: Outcome)
      requires user in users
      requires forall i :: i in listed <==> i in invites && invites[i].workspace == workspace
                                            && invites[i].email == Some(users[user].email) && !invites[i].revoked
      modifies this`members, this`invites, this`users
      ensures View() == Removed(old(View()), workspace, user, next)
      ensures outcome.Settled? <==> (workspace, user) in old(members) && old(members)[(workspace, user)] != Owner
      ensures outcome.NotAMember? <==> (workspace, user) !in old(members)
    {
      if (workspace, user) !in members {
        return NotAMember;
      }
      if members[(workspace, user)] == Owner {
        return OwnerStays;
      }
      members := members - {(workspace, user)};
      for k := 0 to |listed|
        modifies this`invites
        invariant invites.Keys == old(invites).Keys
        invariant forall i | i in invites ::
            invites[i] == if i in listed[..k] then old(invites)[i].(revoked := true) else old(invites)[i]
      {
        assert listed[..k + 1] == listed[..k] + [listed[k]];
        invites := invites[listed[k] := invites[listed[k]].(revoked := true)];
      }
      assert listed[..|listed|] == listed;
      if users[user].homeId == Some(workspace) {
        users := users[user := users[user].(homeId := next)];
      }
      assert invites == Removed(old(View()), workspace, user, next).invites;
      outcome := Settled;
    }

    /** The foreign keys: memberships and invites go with the workspace, defaults become empty. */
    method DeleteWorkspace(w: Id)
      requires w in workspaces
      modifies this`users, this`workspaces, this`members, this`invites
      ensures View() == WithoutWorkspaces(old(View()), {w})
      ensures |workspaces| == |old(workspaces)| - 1
    {
      OneFewer(workspaces, w);
      users := DefaultsWithout(users, {w});
      workspaces := WorkspacesWithout(workspaces, {w});
      members := MembersWithout(members, {w});
      invites := InvitesWithout(invites, {w});
    }

    /** The two counts over the tables of recordings and of history. */
    method IsBusy(w: Id, recs: Table, ledger: seq<LedgerRow>) returns (busy: bool)
      ensures busy <==> w in Busy(recs, ledger)
    {
      var here := set id | id in recs && recs[id].workspace == w;
      var history := 0;
      for k := 0 to |ledger|
        invariant history >= 0 && (history == 0 <==> forall j | 0 <= j < k :: ledger[j].workspace != w)
      {
        if ledger[k].workspace == w {
          history := history + 1;
        }
      }
      busy := |here| != 0 || history != 0;
      if id :| id in recs && recs[id].workspace == w {
        assert id in here;
      } else {
        assert here == {};
      }
    }

    method DropIfEmpty(w: Id, user: Id, recs: Table, ledger: seq<LedgerRow>) returns (dropped: bool)
      requires (w, user) in members
      modifies this`users, this`workspaces, this`members, this`invites
      ensures dropped <==> Droppable(old(View()), Busy(recs, ledger), w, user)
      ensures View() == if dropped then WithoutWorkspaces(old(View()), {w}) else old(View())
      ensures |workspaces| == |old(workspaces)| - if dropped then 1 else 0
    {
      var busy := IsBusy(w, recs, ledger);
      var alone := forall m | m in members && m.0 == w :: m.1 == user;
      dropped := w in workspaces && workspaces[w] == Personal && alone && !busy;
      if dropped {
        DeleteWorkspace(w);
      }
    }

    /** `listed` are the workspaces the user belongs to. */
    method DropEmptyPersonalWorkspaces(user: Id, recs: Table, ledger: seq<LedgerRow>, listed: seq<Id>)
      returns (dropped: nat)
      requires forall w :: w in listed <==> (w, user) in members
      requires forall i, j | 0 <= i < j < |listed| :: listed[i] != listed[j]
      modifies this`users, this`workspaces, this`members, this`invites
      ensures View() == Dropped(old(View()), Busy(recs, ledger), user)
      ensures dropped == |old(workspaces)| - |workspaces|
    {
      ghost var before, busy := View(), Busy(recs, ledger);
      ghost var gone: set<Id> := {};
      dropped := 0;
      NothingDropped(before);
      for k := 0 to |listed|
        invariant forall w :: w in gone <==> w in listed[..k] && Droppable(before, busy, w, user)
        invariant View() == WithoutWorkspaces(before, gone)
        invariant dropped == |before.workspaces| - |workspaces|
      {
        DropStep(before, gone, busy, listed[..k], listed[k], user);
        assert listed[..k + 1] == listed[..k] + [listed[k]];
        var empty := DropIfEmpty(listed[k], user, recs, ledger);
        if empty {
          gone := gone + {listed[k]};
          dropped := dropped + 1;
        }
      }
      assert listed[..|listed|] == listed;
      AllDropped(before, gone, busy, user);
    }
  }

  lemma NothingDropped(h: House)
    ensures WithoutWorkspaces(h, {}) == h
  {
    assert WithoutWorkspaces(h, {}).users == h.users;
    assert WithoutWorkspaces(h, {}).members == h.members;
    assert WithoutWorkspaces(h, {}).invites == h.invites;
  }

  lemma AllDropped(h: House, gone: set<Id>, busy: set<Id>, user: Id)
    requires forall w :: w in gone <==> (w, user) in h.members && Droppable(h, busy, w, user)
    ensures WithoutWorkspaces(h, gone) == Dropped(h, busy, user)
  {
    assert gone == set w | w in h.workspaces && Droppable(h, busy, w, user) :: w;
  }

  lemma DropStep(h: House, gone: set<Id>, busy: set<Id>, done: seq<Id>, w: Id, user: Id)
    requires forall v :: v in gone <==> v in done && Droppable(h, busy, v, user)
    requires w !in done && (w, user) in h.members
    ensures (w, user) in WithoutWorkspaces(h, gone).members
    ensures Droppable(WithoutWorkspaces(h, gone), busy, w, user) == Droppable(h, busy, w, user)
    ensures WithoutWorkspaces(WithoutWorkspaces(h, gone), {w}) == WithoutWorkspaces(h, gone + {w})
  {
    StillDroppable(h, gone, busy, w, user);
    DroppingOneMore(h, gone, w);
  }

  lemma ClaimingOneMore(t: ShareTable, done: set<Id>, user: Id, email: string, a: Id, direct: Option<Id>)
    requires OneEach(t) && done <= Reserved(t, email) && a in Reserved(t, email) - done
    requires direct.None? ==> !HasDirect(Claimed(t, done, user), t[a].recording, user)
    requires direct.Some? ==>
               && direct.value in Claimed(t, done, user)
               && var d := Claimed(t, done, user)[direct.value];
               d.recording == t[a].recording && d.target == ToUser(user)
    ensures Claimed(t, done + {a}, user) ==
              var now := Claimed(t, done, user);
              match direct
              case None => now[a := t[a].(target := ToUser(user))]
              case Some(d) => now[d := now[d].(edit := now[d].edit || t[a].edit)] - {a}
  {
    NotYetClaimed(t, done, user, email, a);
    match direct {
      case None => ClaimingHandsOver(t, done, user, email, a);
      case Some(d) => ClaimingMerges(t, done, user, email, a, d);
    }
  }

  lemma StillDroppable(h: House, gone: set<Id>, busy: set<Id>, w: Id, user: Id)
    requires w !in gone
    ensures Droppable(WithoutWorkspaces(h, gone), busy, w, user) == Droppable(h, busy, w, user)
  {
    var h' := WithoutWorkspaces(h, gone);
    assert forall m: (Id, Id) | m.0 == w :: m in h'.members <==> m in h.members;
  }

  lemma OneFewer(workspaces: map<Id, Kind>, w: Id)
    requires w in workspaces
    ensures |WorkspacesWithout(workspaces, {w})| == |workspaces| - 1
  {
    assert workspaces == WorkspacesWithout(workspaces, {w})[w := workspaces[w]];
  }

  lemma DroppingOneMore(h: House, gone: set<Id>, w: Id)
    ensures WithoutWorkspaces(h, gone + {w}) == WithoutWorkspaces(WithoutWorkspaces(h, gone), {w})
  {
    var a, b := WithoutWorkspaces(h, gone + {w}), WithoutWorkspaces(WithoutWorkspaces(h, gone), {w});
    assert a.users == b.users;
    assert a.workspaces == b.workspaces;
    assert a.members == b.members;
    assert a.invites == b.invites;
  }
}
