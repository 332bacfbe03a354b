/** Tenant isolation of references: in every reachable state, whatever the interleaving,
    a row only refers to rows of its own tenant. */
module Consistency {
  import opened Text
  import opened Tables
  import opened Transactions
  import opened Effects
  import opened Runs

  predicate ParentConsistent(units: map<string, Unit>, x: string)
    requires x in units
  {
    var parent := units[x].parent;
    parent != "" ==> parent in units && units[parent].tenant == units[x].tenant
  }

  predicate UnitsConsistent(units: map<string, Unit>) {
    forall x {:trigger ParentConsistent(units, x)} | x in units :: ParentConsistent(units, x)
  }

  predicate MembershipsConsistent(memberships: map<string, Membership>, units: map<string, Unit>) {
    forall x | x in memberships && memberships[x].primaryUnit != "" ::
      memberships[x].primaryUnit in units && units[memberships[x].primaryUnit].tenant == memberships[x].tenant
  }

  predicate MembersConsistent(members: map<MemberKey, GroupMember>, groups: map<string, Group>,
                              memberships: map<string, Membership>)
  {
    forall k | k in members ::
      && members[k].group in groups && groups[members[k].group].tenant == members[k].tenant
      && members[k].membership in memberships && memberships[members[k].membership].tenant == members[k].tenant
  }

  /** Every reference stays inside the tenant of the row that holds it. */
  predicate Consistent(db: Database) {
    && UnitsConsistent(db.units)
    && MembershipsConsistent(db.memberships, db.units)
    && MembersConsistent(db.groupMembers, db.groups, db.memberships)
  }

  /** A unit read earlier belongs to the tenant it belongs to now. */
  predicate SameTenant(seen: Option<Unit>, units: map<string, Unit>, x: string) {
    seen.Some? ==> x in units && units[x].tenant == seen.value.tenant
  }

  predicate SameMembership(seen: Option<Membership>, memberships: map<string, Membership>, x: string) {
    seen.Some? ==> x in memberships && memberships[x].tenant == seen.value.tenant
  }

  predicate SameGroup(seen: Option<Group>, groups: map<string, Group>, x: string) {
    seen.Some? ==> x in groups && groups[x].tenant == seen.value.tenant
  }

  // ----- One transaction -----

  lemma CreateUnitConsistent(seenTenant: Option<Tenant>, seenParent: Option<Unit>, db: Database, id: string,
                             tenant: string, parent: string, code: string, name: string, now: int, actor: string)
    requires UnitsConsistent(db.units) && SameTenant(seenParent, db.units, parent)
    ensures UnitsConsistent(CreateUnit(seenTenant, seenParent, db, id, tenant, parent, code, name, now, actor).After(db).units)
  {
    hide CodeTaken, PathTaken;
    var after := CreateUnit(seenTenant, seenParent, db, id, tenant, parent, code, name, now, actor).After(db).units;
    forall x | x in after ensures ParentConsistent(after, x) {
      if x in db.units { assert ParentConsistent(db.units, x); }
    }
  }

  lemma UpdateUnitConsistent(seen: Option<Unit>, seenParent: Option<Unit>, db: Database, id: string, parent: string,
                             name: string, status: string, version: int, now: int, actor: string)
    requires UnitsConsistent(db.units) && SameTenant(seen, db.units, id) && SameTenant(seenParent, db.units, parent)
    ensures UnitsConsistent(UpdateUnit(seen, seenParent, db, id, parent, name, status, version, now, actor).After(db).units)
  {
    hide UpdateUnit, MoveRows;
    var outcome := UpdateUnit(seen, seenParent, db, id, parent, name, status, version, now, actor);
    if outcome.Commit? {
      MoveCommitFacts(seen, seenParent, db, id, parent, name, status, version, now, actor);
      MoveRowsLinks(db.units, id, seen.value.tenant, parent, name, status, seen.value.path, NewPath(seenParent, parent,
          id), now, actor);
      var after := outcome.db.units;
      forall x | x in after ensures ParentConsistent(after, x) {
        assert ParentConsistent(db.units, x);
      }
    }
  }

  /** A move keeps every tenant and every parent link but one. */
  lemma MoveRowsLinks(units: map<string, Unit>, id: string, tenant: string, parent: string, name: string,
                      status: string, oldPath: string, newPath: string, now: int, actor: string)
    requires id in units
    ensures var after := MoveRows(units, id, tenant, parent, name, status, oldPath, newPath, now, actor);
            && after.Keys == units.Keys
            && forall x | x in units ::
                 after[x].tenant == units[x].tenant && after[x].parent == if x == id then parent else units[x].parent
  {
    hide Like, From;
  }

  lemma AddMembershipConsistent(seenUnit: Option<Unit>, db: Database, id: string, tenant: string, user: string,
                                unit: string, now: int, actor: string)
    requires Consistent(db) && SameTenant(seenUnit, db.units, unit)
    ensures Consistent(AddMembership(seenUnit, db, id, tenant, user, unit, now, actor).After(db))
  {
    hide IsMember;
  }

  lemma UpdateMembershipConsistent(seen: Option<Membership>, seenUnit: Option<Unit>, db: Database, id: string,
                                   status: string, unit: string, version: int, now: int, actor: string)
    requires Consistent(db) && SameTenant(seenUnit, db.units, unit)
    requires SameMembership(seen, db.memberships, id)
    ensures Consistent(UpdateMembership(seen, seenUnit, db, id, status, unit, version, now, actor).After(db))
  {
    hide UnitsConsistent, ValidMembershipStatus, MembersConsistent;
    var outcome := UpdateMembership(seen, seenUnit, db, id, status, unit, version, now, actor);
    if outcome.Commit? {
      MembersStayConsistent(db, outcome.db.memberships);
    }
  }

  /** Group members only depend on the tenants of memberships. */
  lemma MembersStayConsistent(db: Database, memberships: map<string, Membership>)
    requires Consistent(db)
    requires forall x | x in db.memberships :: x in memberships && memberships[x].tenant == db.memberships[x].tenant
    ensures MembersConsistent(db.groupMembers, db.groups, memberships)
  {
    hide UnitsConsistent, MembershipsConsistent;
  }

  lemma UpdateTenantConsistent(seen: Option<Tenant>, db: Database, id: string, name: string, status: string, version: int,
                               now: int, actor: string)
    requires Consistent(db)
    ensures Consistent(UpdateTenant(seen, db, id, name, status, version, now, actor).After(db))
  {
  }

  lemma CreateInvitationConsistent(seenTenant: Option<Tenant>, db: Database, id: string, tenant: string, email: string,
                                   expiresIn: int, now: int, actor: string)
    requires Consistent(db)
    ensures Consistent(CreateInvitation(seenTenant, db, id, tenant, email, expiresIn, now, actor).After(db))
  {
  }

  lemma RevokeInvitationConsistent(seen: Option<Invitation>, db: Database, id: string, version: int, now: int, actor: string)
    requires Consistent(db)
    ensures Consistent(RevokeInvitation(seen, db, id, version, now, actor).After(db))
  {
  }

  lemma CreateTenantConsistent(db: Database, id: string, code: string, name: string, owner: string, member: string,
                               now: int, actor: string)
    requires Consistent(db)
    ensures Consistent(CreateTenant(db, id, code, name, owner, member, now, actor).After(db))
  {
    hide IsMember, TenantCodeTaken;
  }

  lemma AcceptInvitationConsistent(seen: Option<Invitation>, db: Database, user: string, member: string,
                                   now: int, actor: string)
    requires Consistent(db)
    ensures Consistent(AcceptInvitation(seen, db, user, member, now, actor).After(db))
  {
    hide IsMember;
  }

  lemma AddGroupMemberConsistent(seenGroup: Option<Group>, seenMembership: Option<Membership>, seen: Option<GroupMember>,
                                 db: Database, id: string, group: string, membership: string, now: int, actor: string)
    requires Consistent(db)
    requires SameGroup(seenGroup, db.groups, group) && SameMembership(seenMembership, db.memberships, membership)
    ensures Consistent(AddGroupMember(seenGroup, seenMembership, seen, db, id, group, membership, now, actor).After(db))
  {
  }

  lemma RemoveGroupMemberConsistent(seen: Option<GroupMember>, seenGroup: Option<Group>, db: Database,
                                    group: string, membership: string, version: int, now: int, actor: string)
    requires Consistent(db)
    ensures Consistent(RemoveGroupMember(seen, seenGroup, db, group, membership, version, now, actor).After(db))
  {
  }

  lemma CreateGroupConsistent(db: Database, id: string, tenant: string, code: string, name: string, now: int, actor: string)
    requires Consistent(db)
    ensures Consistent(CreateGroup(db, id, tenant, code, name, now, actor).After(db))
  {
    hide GroupCodeTaken;
  }

  lemma UpdateGroupConsistent(seen: Option<Group>, db: Database, id: string, name: string, status: string, version: int,
                              now: int, actor: string)
    requires Consistent(db)
    ensures Consistent(UpdateGroup(seen, db, id, name, status, version, now, actor).After(db))
  {
  }

  // ----- One step, with reads of any age -----

  /** What survives from an earlier moment to the present. */
  lemma EarlierRows(h: History, moment: nat, x: string)
    requires Coherent(h)
    ensures SameTenant(Get(At(h, moment).units, x), Now(h).units, x)
    ensures SameMembership(Get(At(h, moment).memberships, x), Now(h).memberships, x)
    ensures SameGroup(Get(At(h, moment).groups, x), Now(h).groups, x)
  {
    var i := if moment < |h| then moment else |h| - 1;
    assert Evolves(h[i], h[|h| - 1]);
  }

  /** Units evolving keeps the references into them. */
  lemma UnitsFamilyConsistent(a: Database, b: Database)
    requires Consistent(a) && Frame(Units, a, b) && UnitsEvolve(a.units, b.units) && UnitsConsistent(b.units)
    ensures Consistent(b)
  {
    hide ParentConsistent;
  }

  lemma UnitTables(h: History, step: Step)
    requires Coherent(h) && UnitsConsistent(Now(h).units) && FamilyOf(step.request) == Units
    ensures UnitsConsistent(Next(h, step).units)
  {
    hide Coherent, At, Now, UnitsConsistent, Get, SameTenant, SameMembership, SameGroup, CreateTenant, UpdateTenant,
        CreateUnit, UpdateUnit, AddMembership,
      UpdateMembership, CreateInvitation, AcceptInvitation, RevokeInvitation, CreateGroup, UpdateGroup, AddGroupMember,
      RemoveGroupMember, SetQuota, ConsumeQuota;
    var db := Now(h);
    var (one, two) := (At(h, step.first), At(h, step.second));
    match step.request {
      case ReqCreateUnit(id, tenant, parent, code, name) =>
        EarlierRows(h, step.second, parent);
        CreateUnitConsistent(Get(one.tenants, tenant), Get(two.units, parent), db, id, tenant, parent, code, name,
                             step.now, step.actor);
      case ReqUpdateUnit(id, parent, name, status, version) =>
        EarlierRows(h, step.first, id);
        EarlierRows(h, step.second, parent);
        UpdateUnitConsistent(Get(one.units, id), Get(two.units, parent), db, id, parent, name, status, version,
                             step.now, step.actor);
    }
  }

  lemma UnitStep(h: History, step: Step)
    requires Coherent(h) && Consistent(Now(h)) && FamilyOf(step.request) == Units
    ensures Consistent(Next(h, step))
  {
    hide Perform, UnitsConsistent, MembershipsConsistent, MembersConsistent, UnitsEvolve, Keyed, Announces;
    UnitTables(h, step);
    StepEffect(h, step);
    assert Keyed(h[|h| - 1]);
    if Perform(h, step).Commit? {
      UnitsFamilyConsistent(Now(h), Next(h, step));
    }
  }

  lemma MemberStep(h: History, step: Step)
    requires Coherent(h) && Consistent(Now(h)) && FamilyOf(step.request) in {Tenants, Memberships, Groups}
    ensures Consistent(Next(h, step))
  {
    hide Coherent, At, Now, Consistent, Get, SameTenant, SameMembership, SameGroup, CreateTenant, UpdateTenant,
        CreateUnit, UpdateUnit, AddMembership,
      UpdateMembership, CreateInvitation, AcceptInvitation, RevokeInvitation, CreateGroup, UpdateGroup, AddGroupMember,
      RemoveGroupMember, SetQuota, ConsumeQuota;
    var db := Now(h);
    var (one, two, three) := (At(h, step.first), At(h, step.second), At(h, step.third));
    var (now, actor) := (step.now, step.actor);
    match step.request {
      case ReqCreateTenant(id, code, name, owner, member) =>
        CreateTenantConsistent(db, id, code, name, owner, member, now, actor);
      case ReqUpdateTenant(id, name, status, version) =>
        UpdateTenantConsistent(Get(one.tenants, id), db, id, name, status, version, now, actor);
      case ReqAddMembership(id, tenant, user, unit) =>
        EarlierRows(h, step.first, unit);
        AddMembershipConsistent(Get(one.units, unit), db, id, tenant, user, unit, now, actor);
      case ReqUpdateMembership(id, status, unit, version) =>
        EarlierRows(h, step.first, id);
        EarlierRows(h, step.second, unit);
        UpdateMembershipConsistent(Get(one.memberships, id), Get(two.units, unit), db, id, status, unit, version, now, actor);
      case ReqCreateGroup(id, tenant, code, name) => CreateGroupConsistent(db, id, tenant, code, name, now, actor);
      case ReqUpdateGroup(id, name, status, version) =>
        UpdateGroupConsistent(Get(one.groups, id), db, id, name, status, version, now, actor);
      case ReqAddGroupMember(id, group, membership) =>
        EarlierRows(h, step.first, group);
        EarlierRows(h, step.second, membership);
        AddGroupMemberConsistent(Get(one.groups, group), Get(two.memberships, membership),
                                 Get(three.groupMembers, (group, membership)), db, id, group, membership, now, actor);
      case ReqRemoveGroupMember(group, membership, version) =>
        RemoveGroupMemberConsistent(Get(one.groupMembers, (group, membership)), Get(two.groups, group),
                                    db, group, membership, version, now, actor);
    }
  }

  lemma InvitationStep(h: History, step: Step)
    requires Consistent(Now(h)) && FamilyOf(step.request) == Invitations
    ensures Consistent(Next(h, step))
  {
    hide At, Now, Consistent, Get, CreateTenant, UpdateTenant, CreateUnit, UpdateUnit, AddMembership,
      UpdateMembership, CreateInvitation, AcceptInvitation, RevokeInvitation, CreateGroup, UpdateGroup, AddGroupMember,
      RemoveGroupMember, SetQuota, ConsumeQuota;
    var (db, one) := (Now(h), At(h, step.first));
    match step.request {
      case ReqCreateInvitation(id, tenant, email, expiresIn) =>
        CreateInvitationConsistent(Get(one.tenants, tenant), db, id, tenant, email, expiresIn, step.now, step.actor);
      case ReqAcceptInvitation(id, user, member) =>
        AcceptInvitationConsistent(Get(one.invitations, id), db, user, member, step.now, step.actor);
      case ReqRevokeInvitation(id, version) =>
        RevokeInvitationConsistent(Get(one.invitations, id), db, id, version, step.now, step.actor);
    }
  }

  lemma QuotaStep(h: History, step: Step)
    requires Consistent(Now(h)) && FamilyOf(step.request) == Quotas
    ensures Consistent(Next(h, step))
  {
    hide Perform, UnitsConsistent, MembershipsConsistent, MembersConsistent, Evolves, Keyed, Announces;
    StepEffect(h, step);
  }

  lemma StepConsistent(h: History, step: Step)
    requires Coherent(h) && Consistent(Now(h))
    ensures Consistent(Next(h, step))
  {
    hide Coherent, Consistent, Next;
    match FamilyOf(step.request) {
      case Units => UnitStep(h, step);
      case Invitations => InvitationStep(h, step);
      case Quotas => QuotaStep(h, step);
      case Tenants => MemberStep(h, step);
      case Memberships => MemberStep(h, step);
      case Groups => MemberStep(h, step);
    }
  }

  /** In every state of every run, with reads and writes interleaved in any way, a unit's parent, a
      membership's primary unit, and a group member's group and membership carry the row's own tenant. */
  lemma {:induction false} RunConsistent(steps: seq<Step>)
    ensures forall i | 0 <= i <= |steps| :: Consistent(Execute(steps)[i])
  {
    hide Next, Consistent, Coherent;
    if steps == [] {
      EmptyConsistent();
    } else {
      var before := steps[..|steps| - 1];
      RunConsistent(before);
      RunCoherent(before);
      assert Consistent(Execute(before)[|before|]);
      StepConsistent(Execute(before), steps[|steps| - 1]);
    }
  }

  lemma EmptyConsistent()
    ensures Consistent(EMPTY)
  {
  }
}
