/** Workspaces, memberships and invites. */
module Tenancy {
  import opened Records
  import opened Quota

  datatype Role = Owner | Admin | Member | Viewer

  datatype Kind = Personal | Team

  datatype User = User(email: string, homeId: Option<Id>)

  datatype Invite = Invite(
    email: Option<string>, workspace: Id, role: Role, expiresAt: Option<real>, maxUses: nat, uses: nat, revoked: bool)

  /** `homeId` of a user is `default_workspace_id`. Members are keyed by workspace and user. */
  datatype House = House(
    users: map<Id, User>, workspaces: map<Id, Kind>, members: map<(Id, Id), Role>, invites: map<Id, Invite>)

  predicate Belongs(h: House, workspace: Id, user: Id) {
    (workspace, user) in h.members
  }

  predicate Open(i: Invite, now: real) {
    !i.revoked && (i.expiresAt.None? || i.expiresAt.value > now) && i.uses < i.maxUses
  }

  /** Joins as the invite says, and uses it up by one only when that makes a new member. */
  function Redeemed(h: House, id: Id, user: Id): House
    requires id in h.invites
  {
    var i := h.invites[id];
    if Belongs(h, i.workspace, user) then h
    else h.(members := h.members[(i.workspace, user) := i.role],
      invites := h.invites[id := i.(uses := i.uses + 1)])
  }

  /** Whether the holder of the invite may use it: an invite with an address is for that address only. */
  predicate Usable(h: House, id: Id, user: Id, now: real) {
    && id in h.invites && user in h.users && Open(h.invites[id], now) && h.invites[id].workspace in h.workspaces
    && (h.invites[id].email.Some? ==> h.invites[id].email.value == h.users[user].email)
  }

  /** The workspace becomes the default of a user who has none, even one who was a member already. */
  function Accepted(h: House, id: Id, user: Id, now: real): House {
    if !Usable(h, id, user, now) then h
    else
      var h' := Redeemed(h, id, user);
      if h'.users[user].homeId.Some? then h'
      else h'.(users := h'.users[user := h'.users[user].(homeId := Some(h.invites[id].workspace))])
  }

  /** The invites reserved for the user's address, in the order the query returns them. */
  function ClaimedInvites(h: House, order: seq<Id>, user: Id, now: real): House
    requires user in h.users
  {
    if order == [] then h
    else
      var before := ClaimedInvites(h, order[..|order| - 1], user, now);
      var id := order[|order| - 1];
      if user in before.users && id in before.invites && before.invites[id].email == Some(before.users[user].email)
         && Open(before.invites[id], now)
      then Redeemed(before, id, user) else before
  }

  function RoleSet(h: House, workspace: Id, user: Id, role: Role): House {
    if role == Owner || !Belongs(h, workspace, user) || h.members[(workspace, user)] == Owner then h
    else h.(members := h.members[(workspace, user) := role])
  }

  /** `next` is the membership the database happens to return first among those left. */
  function Removed(h: House, workspace: Id, user: Id, next: Option<Id>): House {
    if !Belongs(h, workspace, user) || user !in h.users || h.members[(workspace, user)] == Owner then h
    else
      var u := h.users[user];
      h.(members := h.members - {(workspace, user)},
        invites := map i | i in h.invites ::
          if h.invites[i].workspace == workspace && h.invites[i].email == Some(u.email)
          then h.invites[i].(revoked := true) else h.invites[i],
        users := if u.homeId == Some(workspace) then h.users[user := u.(homeId := next)] else h.users)
  }

  /** The workspaces that have recordings or history. */
  function Busy(recs: Table, ledger: seq<LedgerRow>): set<Id> {
    (set id | id in recs :: recs[id].workspace) + (set k | 0 <= k < |ledger| :: ledger[k].workspace)
  }

  /** A personal workspace whose only member this user is, with neither recordings nor history. */
  predicate Droppable(h: House, busy: set<Id>, workspace: Id, user: Id) {
    && workspace in h.workspaces && h.workspaces[workspace] == Personal
    && Belongs(h, workspace, user)
    && (forall m | m in h.members && m.0 == workspace :: m.1 == user)
    && workspace !in busy
  }

  function DefaultsWithout(users: map<Id, User>, gone: set<Id>): map<Id, User> {
    map u | u in users ::
      if users[u].homeId.Some? && users[u].homeId.value in gone then users[u].(homeId := None) else users[u]
  }

  function WorkspacesWithout(workspaces: map<Id, Kind>, gone: set<Id>): map<Id, Kind> {
    map w | w in workspaces && w !in gone :: workspaces[w]
  }

  function MembersWithout(members: map<(Id, Id), Role>, gone: set<Id>): map<(Id, Id), Role> {
    map m | m in members && m.0 !in gone :: members[m]
  }

  function InvitesWithout(invites: map<Id, Invite>, gone: set<Id>): map<Id, Invite> {
    map i | i in invites && invites[i].workspace !in gone :: invites[i]
  }

  /** Deleting a workspace takes its memberships and invites along, and leaves it nobody's default. */
  function WithoutWorkspaces(h: House, gone: set<Id>): House {
    House(DefaultsWithout(h.users, gone), WorkspacesWithout(h.workspaces, gone),
          MembersWithout(h.members, gone), InvitesWithout(h.invites, gone))
  }

  function Dropped(h: House, busy: set<Id>, user: Id): House {
    WithoutWorkspaces(h, set w | w in h.workspaces && Droppable(h, busy, w, user) :: w)
  }

  /** Approval gives a user without any workspace a personal one, under the fresh id `workspace`. */
  function Homed(h: House, user: Id, workspace: Id, next: Option<Id>): House
    requires user in h.users
  {
    if exists m | m in h.members :: m.1 == user then
      if h.users[user].homeId.None? then h.(users := h.users[user := h.users[user].(homeId := next)]) else h
    else Founded(h, user, workspace, Personal, true)
  }

  /** A new workspace and its owner, whose default it becomes only when `home` is set. */
  function Founded(h: House, user: Id, workspace: Id, kind: Kind, home: bool): House
    requires user in h.users
  {
    if workspace in h.workspaces then h
    else h.(workspaces := h.workspaces[workspace := kind],
      members := h.members[(workspace, user) := Owner],
      users := if home then h.users[user := h.users[user].(homeId := Some(workspace))] else h.users)
  }

  function Issued(h: House, id: Id, invite: Invite): House {
    if id in h.invites || invite.role !in {Admin, Member, Viewer} || invite.maxUses < 1
       || invite.uses != 0 || invite.revoked || invite.workspace !in h.workspaces then h
    else h.(invites := h.invites[id := invite])
  }

  function Revoked(h: House, id: Id): House {
    if id in h.invites then h.(invites := h.invites[id := h.invites[id].(revoked := true)]) else h
  }

  datatype Step =
    | SignUp(user: Id, email: string, workspace: Id, approved: bool, order: seq<Id>, now: real)
    | Found(user: Id, workspace: Id, kind: Kind, home: bool)
    | Issue(id: Id, invite: Invite)
    | Revoke(id: Id)
    | Accept(id: Id, user: Id, now: real)
    | SetRole(workspace: Id, user: Id, role: Role)
    | Remove(workspace: Id, user: Id, next: Option<Id>)
    | Approve(user: Id, workspace: Id, next: Option<Id>, order: seq<Id>, now: real)
    | Reject(user: Id, busy: set<Id>)

  /** `next` stands for some membership the user has: a query without an order. */
  predicate AnyMembership(h: House, user: Id, except: Option<Id>, next: Option<Id>) {
    && (next.Some? ==> Belongs(h, next.value, user) && next != except)
    && (next.None? ==> forall m | m in h.members && m.1 == user :: Some(m.0) == except)
  }

  function Next(h: House, e: Step): House {
    match e
    case SignUp(user, email, workspace, approved, order, now) =>
      if user in h.users || workspace in h.workspaces then h
      else
        var h' := Founded(h.(users := h.users[user := User(email, None)]), user, workspace, Personal, true);
        if approved then ClaimedInvites(h', order, user, now) else h'
    case Found(user, workspace, kind, home) => if user in h.users then Founded(h, user, workspace, kind, home) else h
    case Issue(id, invite) => Issued(h, id, invite)
    case Revoke(id) => Revoked(h, id)
    case Accept(id, user, now) => Accepted(h, id, user, now)
    case SetRole(workspace, user, role) => RoleSet(h, workspace, user, role)
    case Remove(workspace, user, next) =>
      if AnyMembership(h, user, Some(workspace), next) then Removed(h, workspace, user, next) else h
    case Approve(user, workspace, next, order, now) =>
      if user in h.users && AnyMembership(h, user, None, next)
      then ClaimedInvites(Homed(h, user, workspace, next), order, user, now) else h
    case Reject(user, busy) => Dropped(h, busy, user)
  }

  const INITIAL := House(map[], map[], map[], map[])

  function Run(h: House, steps: seq<Step>): House {
    if steps == [] then h else Next(Run(h, steps[..|steps| - 1]), steps[|steps| - 1])
  }

  /* ---------- what every step keeps ---------- */

  predicate Kept(h: House) {
    && (forall m | m in h.members :: m.0 in h.workspaces && m.1 in h.users)
    && (forall a, b | && a in h.members && b in h.members && a.0 == b.0
                      && h.members[a] == Owner && h.members[b] == Owner :: a == b)
    && (forall i | i in h.invites ::
          && h.invites[i].uses <= h.invites[i].maxUses
          && h.invites[i].role != Owner
          && h.invites[i].workspace in h.workspaces)
    && (forall u | u in h.users && h.users[u].homeId.Some? :: Belongs(h, h.users[u].homeId.value, u))
  }

  lemma AcceptedKeeps(h: House, id: Id, user: Id, now: real)
    requires Kept(h)
    ensures Kept(Accepted(h, id, user, now))
  {
    if Usable(h, id, user, now) {
      RedeemedKeeps(h, id, user);
    }
  }

  lemma RedeemedKeeps(h: House, id: Id, user: Id)
    requires Kept(h) && id in h.invites && h.invites[id].uses < h.invites[id].maxUses && user in h.users
    ensures Kept(Redeemed(h, id, user)) && Redeemed(h, id, user).users == h.users
  {
  }

  lemma {:induction false} ClaimedKeeps(h: House, order: seq<Id>, user: Id, now: real)
    requires Kept(h) && user in h.users
    ensures Kept(ClaimedInvites(h, order, user, now)) && ClaimedInvites(h, order, user, now).users == h.users
  {
    if order != [] {
      ClaimedKeeps(h, order[..|order| - 1], user, now);
      var before, id := ClaimedInvites(h, order[..|order| - 1], user, now), order[|order| - 1];
      if id in before.invites && before.invites[id].email == Some(before.users[user].email)
            && Open(before.invites[id], now) {
        RedeemedKeeps(before, id, user);
      }
    }
  }

  lemma FoundedKeeps(h: House, user: Id, workspace: Id, kind: Kind, home: bool)
    requires Kept(h) && user in h.users
    ensures Kept(Founded(h, user, workspace, kind, home))
  {
  }

  lemma RemovedKeeps(h: House, workspace: Id, user: Id, next: Option<Id>)
    requires Kept(h) && AnyMembership(h, user, Some(workspace), next)
    ensures Kept(Removed(h, workspace, user, next))
  {
  }

  lemma DroppedKeeps(h: House, busy: set<Id>, user: Id)
    requires Kept(h)
    ensures Kept(Dropped(h, busy, user))
  {
    var h' := Dropped(h, busy, user);
    forall u | u in h'.users && h'.users[u].homeId.Some?
      ensures Belongs(h', h'.users[u].homeId.value, u)
    {
      assert Belongs(h, h.users[u].homeId.value, u);
    }
  }

  lemma HomedKeeps(h: House, user: Id, workspace: Id, next: Option<Id>)
    requires Kept(h) && user in h.users && AnyMembership(h, user, None, next)
    ensures Kept(Homed(h, user, workspace, next)) && user in Homed(h, user, workspace, next).users
  {
  }

  lemma SignUpKeeps(h: House, user: Id, email: string, workspace: Id, order: seq<Id>, now: real)
    requires Kept(h) && user !in h.users && workspace !in h.workspaces
    ensures var h' := Founded(h.(users := h.users[user := User(email, None)]), user, workspace, Personal, true);
            Kept(h') && user in h'.users && Kept(ClaimedInvites(h', order, user, now))
  {
    var h1 := h.(users := h.users[user := User(email, None)]);
    assert Kept(h1);
    FoundedKeeps(h1, user, workspace, Personal, true);
    ClaimedKeeps(Founded(h1, user, workspace, Personal, true), order, user, now);
  }

  lemma StepKeeps(h: House, e: Step)
    requires Kept(h)
    ensures Kept(Next(h, e))
  {
    match e {
      case SignUp(user, email, workspace, approved, order, now) =>
        if user !in h.users && workspace !in h.workspaces {
          SignUpKeeps(h, user, email, workspace, order, now);
        }
      case Found(user, workspace, kind, home) =>
        if user in h.users {
          FoundedKeeps(h, user, workspace, kind, home);
        }
      case Accept(id, user, now) => AcceptedKeeps(h, id, user, now);
      case Remove(workspace, user, next) =>
        if AnyMembership(h, user, Some(workspace), next) {
          RemovedKeeps(h, workspace, user, next);
        }
      case Approve(user, workspace, next, order, now) =>
        if user in h.users && AnyMembership(h, user, None, next) {
          HomedKeeps(h, user, workspace, next);
          ClaimedKeeps(Homed(h, user, workspace, next), order, user, now);
        }
      case Reject(user, busy) => DroppedKeeps(h, busy, user);
      case _ =>
    }
  }

  /** In every run: no invite is used more often than allowed, none makes an owner, a workspace has at most
      one owner, and a user's default workspace is one the user belongs to. */
  lemma {:induction false} AlwaysKept(steps: seq<Step>)
    ensures Kept(Run(INITIAL, steps))
  {
    if steps != [] {
      AlwaysKept(steps[..|steps| - 1]);
      StepKeeps(Run(INITIAL, steps[..|steps| - 1]), steps[|steps| - 1]);
    }
  }

  /* ---------- homes ---------- */

  /** Whoever is approved has a default workspace and belongs to it, also after a rejection took the old one. */
  lemma ApprovalGivesAHome(steps: seq<Step>, user: Id, workspace: Id, next: Option<Id>, order: seq<Id>, now: real)
    requires var h := Run(INITIAL, steps);
             user in h.users && workspace !in h.workspaces && AnyMembership(h, user, None, next)
    ensures var h' := Next(Run(INITIAL, steps), Approve(user, workspace, next, order, now));
            && user in h'.users
            && h'.users[user].homeId.Some?
            && Belongs(h', h'.users[user].homeId.value, user)
  {
    AlwaysKept(steps);
    var h := Run(INITIAL, steps);
    HomedKeeps(h, user, workspace, next);
    ClaimedKeeps(Homed(h, user, workspace, next), order, user, now);
  }

  /** Whoever takes an invite is a member of that workspace then, and has a default workspace. */
  lemma AcceptingGivesAHome(h: House, id: Id, user: Id, now: real)
    requires Usable(h, id, user, now)
    ensures var h' := Accepted(h, id, user, now);
            && Belongs(h', h.invites[id].workspace, user)
            && h'.users[user].homeId.Some?
            && (h.users[user].homeId.Some? ==> h'.users == h.users)
            && (Belongs(h, h.invites[id].workspace, user) ==> h'.members == h.members && h'.invites == h.invites)
  {
  }

  /* ---------- owners ---------- */

  function Owners(h: House): set<(Id, Id)> {
    set m | m in h.members && h.members[m] == Owner
  }

  lemma {:induction false} ClaimingKeepsOwners(h: House, order: seq<Id>, user: Id, now: real)
    requires Kept(h) && user in h.users
    ensures Owners(ClaimedInvites(h, order, user, now)) == Owners(h)
  {
    if order != [] {
      ClaimingKeepsOwners(h, order[..|order| - 1], user, now);
      ClaimedKeeps(h, order[..|order| - 1], user, now);
    }
  }

  /** No invite, role change or removal makes, changes or removes an owner. */
  lemma OwnersAreOutOfReach(steps: seq<Step>, e: Step)
    requires e.Issue? || e.Revoke? || e.Accept? || e.SetRole? || e.Remove?
    ensures Owners(Next(Run(INITIAL, steps), e)) == Owners(Run(INITIAL, steps))
  {
    AlwaysKept(steps);
  }

  /* ---------- every use is one new member ---------- */

  function TotalUses(invites: map<Id, Invite>, hi: Id): nat {
    if hi == 0 then 0 else TotalUses(invites, hi - 1) + if hi - 1 in invites then invites[hi - 1].uses else 0
  }

  lemma {:induction false} TotalUsesOfUpdate(invites: map<Id, Invite>, id: Id, i: Invite, hi: Id)
    requires id in invites
    ensures TotalUses(invites[id := i], hi) == TotalUses(invites, hi) + if id < hi then i.uses - invites[id].uses else 0
  {
    if hi > 0 {
      TotalUsesOfUpdate(invites, id, i, hi - 1);
    }
  }

  lemma RedeemedPairs(h: House, id: Id, user: Id, hi: Id)
    requires id in h.invites && id < hi
    ensures var h' := Redeemed(h, id, user);
            && |h'.members| - |h.members| == TotalUses(h'.invites, hi) - TotalUses(h.invites, hi)
            && h'.invites.Keys == h.invites.Keys
  {
    var i := h.invites[id];
    if !Belongs(h, i.workspace, user) {
      TotalUsesOfUpdate(h.invites, id, i.(uses := i.uses + 1), hi);
      assert |h.members[(i.workspace, user) := i.role]| == |h.members| + 1;
    }
  }

  /** However many reserved invites point at the same workspace, the uses added are the memberships gained. */
  lemma {:induction false} UsesPairWithMemberships(h: House, order: seq<Id>, user: Id, now: real, hi: Id)
    requires user in h.users && (forall i | i in h.invites :: i < hi)
    ensures var h' := ClaimedInvites(h, order, user, now);
            && |h'.members| - |h.members| == TotalUses(h'.invites, hi) - TotalUses(h.invites, hi)
            && h'.invites.Keys == h.invites.Keys
  {
    if order != [] {
      UsesPairWithMemberships(h, order[..|order| - 1], user, now, hi);
      var before, id := ClaimedInvites(h, order[..|order| - 1], user, now), order[|order| - 1];
      if id in before.invites {
        RedeemedPairs(before, id, user, hi);
      }
    }
  }

  /** Outside, and no invite for the user's address that leads in is live. */
  predicate ShutOut(h: House, workspace: Id, user: Id) {
    && user in h.users && !Belongs(h, workspace, user)
    && (forall i | i in h.invites && h.invites[i].workspace == workspace
                   && h.invites[i].email == Some(h.users[user].email) :: h.invites[i].revoked)
  }

  /** A step that invites this address into the workspace again, or makes a workspace under its key. */
  predicate Readmits(e: Step, workspace: Id, email: string) {
    match e
    case Issue(_, invite) => invite.workspace == workspace && invite.email == Some(email)
    case SignUp(_, _, w, _, _, _) => w == workspace
    case Found(_, w, _, _) => w == workspace
    case Approve(_, w, _, _, _) => w == workspace
    case _ => false
  }

  /** The user takes an open invite into the workspace. */
  predicate LetsIn(h: House, e: Step, workspace: Id, user: Id) {
    && e.Accept? && e.user == user && Usable(h, e.id, user, e.now)
    && h.invites[e.id].workspace == workspace && h.invites[e.id].email.None?
  }

  lemma {:induction false} ClaimingKeepsShutOut(h: House, order: seq<Id>, claimant: Id, now: real, workspace: Id,
        user: Id)
    requires claimant in h.users && ShutOut(h, workspace, user)
    ensures var h' := ClaimedInvites(h, order, claimant, now); ShutOut(h', workspace, user) && h'.users == h.users
  {
    if order != [] {
      ClaimingKeepsShutOut(h, order[..|order| - 1], claimant, now, workspace, user);
    }
  }

  lemma SignUpKeepsShutOut(h: House, e: Step, workspace: Id, user: Id)
    requires e.SignUp? && ShutOut(h, workspace, user) && e.workspace != workspace
    ensures ShutOut(Next(h, e), workspace, user) && Next(h, e).users[user].email == h.users[user].email
  {
    if e.user !in h.users && e.workspace !in h.workspaces {
      var h' := Founded(h.(users := h.users[e.user := User(e.email, None)]), e.user, e.workspace, Personal, true);
      assert ShutOut(h', workspace, user);
      ClaimingKeepsShutOut(h', e.order, e.user, e.now, workspace, user);
    }
  }

  lemma ApprovalKeepsShutOut(h: House, e: Step, workspace: Id, user: Id)
    requires e.Approve? && ShutOut(h, workspace, user) && e.workspace != workspace
    ensures ShutOut(Next(h, e), workspace, user) && Next(h, e).users[user].email == h.users[user].email
  {
    if e.user in h.users && AnyMembership(h, e.user, None, e.next) {
      var h' := Homed(h, e.user, e.workspace, e.next);
      assert ShutOut(h', workspace, user);
      ClaimingKeepsShutOut(h', e.order, e.user, e.now, workspace, user);
    }
  }

  lemma StepKeepsShutOut(h: House, e: Step, workspace: Id, user: Id)
    requires ShutOut(h, workspace, user) && !Readmits(e, workspace, h.users[user].email)
    ensures user in Next(h, e).users && Next(h, e).users[user].email == h.users[user].email
    ensures if LetsIn(h, e, workspace, user) then Belongs(Next(h, e), workspace, user)
            else ShutOut(Next(h, e), workspace, user)
  {
    match e {
      case SignUp(_, _, _, _, _, _) => SignUpKeepsShutOut(h, e, workspace, user);
      case Approve(_, _, _, _, _) => ApprovalKeepsShutOut(h, e, workspace, user);
      case _ =>
    }
  }

  /** At some point along the steps the user belongs to the workspace. */
  predicate EverIn(h: House, steps: seq<Step>, workspace: Id, user: Id) {
    Belongs(Run(h, steps), workspace, user) || (steps != [] && EverIn(h, steps[..|steps| - 1], workspace, user))
  }

  /** At some point along the steps the user takes an open invite into it. */
  predicate EverLetIn(h: House, steps: seq<Step>, workspace: Id, user: Id) {
    steps != [] &&
    (var rest := steps[..|steps| - 1];
     EverLetIn(h, rest, workspace, user) || LetsIn(Run(h, rest), steps[|steps| - 1], workspace, user))
  }

  lemma {:induction false} ShutOutExactly(h: House, steps: seq<Step>, workspace: Id, user: Id)
    requires ShutOut(h, workspace, user)
    requires forall k | 0 <= k < |steps| :: !Readmits(steps[k], workspace, h.users[user].email)
    ensures EverIn(h, steps, workspace, user) <==> EverLetIn(h, steps, workspace, user)
    ensures !EverLetIn(h, steps, workspace, user) ==>
              var h' := Run(h, steps); ShutOut(h', workspace, user) && h'.users[user].email == h.users[user].email
  {
    if steps != [] {
      var rest := steps[..|steps| - 1];
      ShutOutExactly(h, rest, workspace, user);
      if !EverLetIn(h, rest, workspace, user) {
        StepKeepsShutOut(Run(h, rest), steps[|steps| - 1], workspace, user);
      }
    }
  }

  /** A member taken out gets in again exactly by taking an open invite, whatever else follows, as long as nobody
      issues an invite for that address: those sent before are revoked with the membership. Open invites are left, as
      the program says. */
  lemma {:induction false} RemovedGetsInExactly(h: House, workspace: Id, user: Id, next: Option<Id>, steps: seq<Step>)
    requires user in h.users && Belongs(h, workspace, user) && h.members[(workspace, user)] != Owner
    requires forall k | 0 <= k < |steps| :: !Readmits(steps[k], workspace, h.users[user].email)
    ensures var h' := Removed(h, workspace, user, next);
            EverIn(h', steps, workspace, user) <==> EverLetIn(h', steps, workspace, user)
  {
    assert ShutOut(Removed(h, workspace, user, next), workspace, user);
    ShutOutExactly(Removed(h, workspace, user, next), steps, workspace, user);
  }

  /* ---------- which workspaces a step keeps ---------- */

  lemma {:induction false} ClaimingKeepsWorkspaces(h: House, order: seq<Id>, user: Id, now: real)
    requires user in h.users
    ensures ClaimedInvites(h, order, user, now).workspaces == h.workspaces
  {
    if order != [] {
      ClaimingKeepsWorkspaces(h, order[..|order| - 1], user, now);
    }
  }

  /** The key a step brings along for a workspace it may have to make. */
  function NewKey(e: Step): Option<Id> {
    match e
    case SignUp(_, _, w, _, _, _) => Some(w)
    case Found(_, w, _, _) => Some(w)
    case Approve(_, w, _, _, _) => Some(w)
    case _ => None
  }

  /** A workspace disappears by a rejection that may drop it and in no other way, and appears under the new key only. */
  lemma WorkspacesMove(h: House, e: Step, w: Id)
    requires Kept(h)
    ensures var h' := Next(h, e);
            && (w in h.workspaces ==> (w !in h'.workspaces <==> e.Reject? && Droppable(h, e.busy, w, e.user)))
            && (w !in h.workspaces && w in h'.workspaces ==> NewKey(e) == Some(w))
  {
    match e {
      case SignUp(user, email, workspace, approved, order, now) =>
        if user !in h.users && workspace !in h.workspaces {
          var h1 := Founded(h.(users := h.users[user := User(email, None)]), user, workspace, Personal, true);
          ClaimingKeepsWorkspaces(h1, order, user, now);
        }
      case Approve(user, workspace, next, order, now) =>
        if user in h.users && AnyMembership(h, user, None, next) {
          ClaimingKeepsWorkspaces(Homed(h, user, workspace, next), order, user, now);
        }
      case _ =>
    }
  }
}
