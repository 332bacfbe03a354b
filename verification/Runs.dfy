/** Whole runs of the service under arbitrary interleaving of clients.

    A run is a list of steps, one per request, in commit order. Each step names the moments
    at which its request read its rows: any earlier moment of the run, separately for each row.
    Nothing is assumed about locks. */
module Runs {
  import opened Text
  import opened Tables
  import opened Transactions
  import opened Effects

  datatype Request =
    | ReqCreateTenant(tenantId: Uuid, code: string, name: string, owner: string, ownerMembership: Uuid)
    | ReqUpdateTenant(tenant: string, name: string, status: string, version: int)
    | ReqCreateUnit(unitId: Uuid, tenant: string, parent: string, code: string, name: string)
    | ReqUpdateUnit(unit: string, parent: string, name: string, status: string, version: int)
    | ReqAddMembership(membershipId: Uuid, tenant: string, user: string, primaryUnit: string)
    | ReqUpdateMembership(membership: string, status: string, primaryUnit: string, version: int)
    | ReqCreateInvitation(invitationId: Uuid, tenant: string, email: string, expiresIn: int)
    | ReqAcceptInvitation(invitation: string, user: string, membershipId: Uuid)
    | ReqRevokeInvitation(invitation: string, version: int)
    | ReqCreateGroup(groupId: Uuid, tenant: string, code: string, name: string)
    | ReqUpdateGroup(group: string, name: string, status: string, version: int)
    | ReqAddGroupMember(memberId: Uuid, group: string, membership: string)
    | ReqRemoveGroupMember(group: string, membership: string, version: int)
    | ReqSetQuota(tenant: string, key: string, limit: int, version: int)
    | ReqConsumeQuota(tenant: string, key: string, amount: int)

  /** A request, the moments of its first, second and third read, its clock and its actor. */
  datatype Step = Step(request: Request, first: nat, second: nat, third: nat, now: int, actor: string)

  type History = h: seq<Database> | h != [] witness [EMPTY]

  function Now(h: History): Database {
    h[|h| - 1]
  }

  /** The database at a moment of the history; moments past its end mean the present. */
  function At(h: History, moment: nat): Database {
    if moment < |h| then h[moment] else Now(h)
  }

  function Perform(h: History, step: Step): Outcome {
    var db := Now(h);
    var (one, two, three) := (At(h, step.first), At(h, step.second), At(h, step.third));
    var (now, actor) := (step.now, step.actor);
    match step.request
    case ReqCreateTenant(id, code, name, owner, member) => CreateTenant(db, id, code, name, owner, member, now, actor)
    case ReqUpdateTenant(id, name, status, version) =>
      UpdateTenant(Get(one.tenants, id), db, id, name, status, version, now, actor)
    case ReqCreateUnit(id, tenant, parent, code, name) =>
      CreateUnit(Get(one.tenants, tenant), Get(two.units, parent), db, id, tenant, parent, code, name, now, actor)
    case ReqUpdateUnit(id, parent, name, status, version) =>
      UpdateUnit(Get(one.units, id), Get(two.units, parent), db, id, parent, name, status, version, now, actor)
    case ReqAddMembership(id, tenant, user, unit) =>
      AddMembership(Get(one.units, unit), db, id, tenant, user, unit, now, actor)
    case ReqUpdateMembership(id, status, unit, version) =>
      UpdateMembership(Get(one.memberships, id), Get(two.units, unit), db, id, status, unit, version, now, actor)
    case ReqCreateInvitation(id, tenant, email, expiresIn) =>
      CreateInvitation(Get(one.tenants, tenant), db, id, tenant, email, expiresIn, now, actor)
    case ReqAcceptInvitation(id, user, member) =>
      AcceptInvitation(Get(one.invitations, id), db, user, member, now, actor)
    case ReqRevokeInvitation(id, version) =>
      RevokeInvitation(Get(one.invitations, id), db, id, version, now, actor)
    case ReqCreateGroup(id, tenant, code, name) => CreateGroup(db, id, tenant, code, name, now, actor)
    case ReqUpdateGroup(id, name, status, version) =>
      UpdateGroup(Get(one.groups, id), db, id, name, status, version, now, actor)
    case ReqAddGroupMember(id, group, membership) =>
      AddGroupMember(Get(one.groups, group), Get(two.memberships, membership),
                     Get(three.groupMembers, (group, membership)), db, id, group, membership, now, actor)
    case ReqRemoveGroupMember(group, membership, version) =>
      RemoveGroupMember(Get(one.groupMembers, (group, membership)), Get(two.groups, group),
                        db, group, membership, version, now, actor)
    case ReqSetQuota(tenant, key, limit, version) =>
      SetQuota(Get(one.quotas, (tenant, key)), db, tenant, key, limit, version, now, actor)
    case ReqConsumeQuota(tenant, key, amount) => ConsumeQuota(db, tenant, key, amount, now, actor)
  }

  function Next(h: History, step: Step): Database {
    Perform(h, step).After(Now(h))
  }

  /** All states of the run, from the empty database on. */
  function Execute(steps: seq<Step>): (h: History)
    ensures |h| == |steps| + 1
  {
    if steps == [] then [EMPTY]
    else
      var h := Execute(steps[..|steps| - 1]);
      h + [Next(h, steps[|steps| - 1])]
  }

  function FamilyOf(request: Request): Family {
    match request
    case ReqCreateTenant(_, _, _, _, _) => Tenants
    case ReqUpdateTenant(_, _, _, _) => Tenants
    case ReqCreateUnit(_, _, _, _, _) => Units
    case ReqUpdateUnit(_, _, _, _, _) => Units
    case ReqAddMembership(_, _, _, _) => Memberships
    case ReqUpdateMembership(_, _, _, _) => Memberships
    case ReqCreateInvitation(_, _, _, _) => Invitations
    case ReqAcceptInvitation(_, _, _) => Invitations
    case ReqRevokeInvitation(_, _) => Invitations
    case ReqCreateGroup(_, _, _, _) => Groups
    case ReqUpdateGroup(_, _, _, _) => Groups
    case ReqAddGroupMember(_, _, _) => Groups
    case ReqRemoveGroupMember(_, _, _) => Groups
    case ReqSetQuota(_, _, _, _) => Quotas
    case ReqConsumeQuota(_, _, _) => Quotas
  }

  lemma StepEffect(h: History, step: Step)
    ensures Sound(FamilyOf(step.request), Now(h), Perform(h, step))
  {
    hide Sound, Get, At, Now, CreateTenant, UpdateTenant, CreateUnit, UpdateUnit, AddMembership, UpdateMembership,
        CreateInvitation, AcceptInvitation, RevokeInvitation, CreateGroup, UpdateGroup, AddGroupMember,
        RemoveGroupMember, SetQuota, ConsumeQuota;
    var db := Now(h);
    var (one, two, three) := (At(h, step.first), At(h, step.second), At(h, step.third));
    var (now, actor) := (step.now, step.actor);
    match step.request {
      case ReqCreateTenant(id, code, name, owner, member) => CreateTenantEffect(db, id, code, name, owner, member, now, actor);
      case ReqUpdateTenant(id, name, status, version) =>
        UpdateTenantEffect(Get(one.tenants, id), db, id, name, status, version, now, actor);
      case ReqCreateUnit(id, tenant, parent, code, name) =>
        CreateUnitEffect(Get(one.tenants, tenant), Get(two.units, parent), db, id, tenant, parent, code, name, now, actor);
      case ReqUpdateUnit(id, parent, name, status, version) =>
        UpdateUnitEffect(Get(one.units, id), Get(two.units, parent), db, id, parent, name, status, version, now, actor);
      case ReqAddMembership(id, tenant, user, unit) =>
        AddMembershipEffect(Get(one.units, unit), db, id, tenant, user, unit, now, actor);
      case ReqUpdateMembership(id, status, unit, version) =>
        UpdateMembershipEffect(Get(one.memberships, id), Get(two.units, unit), db, id, status, unit, version, now, actor);
      case ReqCreateInvitation(id, tenant, email, expiresIn) =>
        CreateInvitationEffect(Get(one.tenants, tenant), db, id, tenant, email, expiresIn, now, actor);
      case ReqAcceptInvitation(id, user, member) =>
        AcceptInvitationEffect(Get(one.invitations, id), db, user, member, now, actor);
      case ReqRevokeInvitation(id, version) =>
        RevokeInvitationEffect(Get(one.invitations, id), db, id, version, now, actor);
      case ReqCreateGroup(id, tenant, code, name) => CreateGroupEffect(db, id, tenant, code, name, now, actor);
      case ReqUpdateGroup(id, name, status, version) =>
        UpdateGroupEffect(Get(one.groups, id), db, id, name, status, version, now, actor);
      case ReqAddGroupMember(id, group, membership) =>
        AddGroupMemberEffect(Get(one.groups, group), Get(two.memberships, membership), Get(three.groupMembers, (group,
            membership)), db, id, group, membership, now, actor);
      case ReqRemoveGroupMember(group, membership, version) =>
        RemoveGroupMemberEffect(Get(one.groupMembers, (group, membership)), Get(two.groups, group), db, group,
            membership, version, now, actor);
      case ReqSetQuota(tenant, key, limit, version) =>
        SetQuotaEffect(Get(one.quotas, (tenant, key)), db, tenant, key, limit, version, now, actor);
      case ReqConsumeQuota(tenant, key, amount) => ConsumeQuotaEffect(db, tenant, key, amount, now, actor);
    }
  }

  // ----- What holds between any two moments of a run -----

  /** Any earlier state of the history evolved into any later one. */
  ghost predicate Coherent(h: History) {
    && (forall i {:trigger h[i]} | 0 <= i < |h| :: Keyed(h[i]))
    && (forall i, j {:trigger h[i], h[j]} | 0 <= i <= j < |h| :: Evolves(h[i], h[j]))
  }

  lemma CoherentStep(h: History, step: Step)
    requires Coherent(h)
    ensures Coherent(h + [Next(h, step)])
  {
    StepEffect(h, step);
    hide Perform, Keyed;
    var db' := Next(h, step);
    var h' := h + [db'];
    assert Evolves(Now(h), db') && Keyed(db');
    forall i, j | 0 <= i <= j < |h'| ensures Evolves(h'[i], h'[j]) {
      if i < |h| && j == |h| {
        assert Evolves(h[i], h[|h| - 1]);
        EvolvesTransitive(h[i], Now(h), db');
      } else if i == |h| {
        EvolvesReflexive(db');
      }
    }
  }

  /** Every run is coherent: no interleaving can make a row vanish, change tenant, or change
      under an unchanged version. */
  lemma {:induction false} RunCoherent(steps: seq<Step>)
    ensures Coherent(Execute(steps))
  {
    if steps == [] {
      EvolvesReflexive(EMPTY);
    } else {
      RunCoherent(steps[..|steps| - 1]);
      CoherentStep(Execute(steps[..|steps| - 1]), steps[|steps| - 1]);
    }
  }

  // ----- Counting events over a run -----

  /** How many steps of the run committed. */
  function Commits(steps: seq<Step>): nat {
    if steps == [] then 0
    else
      var before := steps[..|steps| - 1];
      Commits(before) + if Perform(Execute(before), steps[|steps| - 1]).Commit? then 1 else 0
  }

  /** Outbox atomicity over whole runs: the outbox holds exactly one event per committed request. */
  lemma {:induction false} OutboxCountsCommits(steps: seq<Step>)
    ensures |Now(Execute(steps)).outbox| == Commits(steps)
  {
    hide Perform;
    if steps != [] {
      var before := steps[..|steps| - 1];
      OutboxCountsCommits(before);
      StepEffect(Execute(before), steps[|steps| - 1]);
    }
  }
}
