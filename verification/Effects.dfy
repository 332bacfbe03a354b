/** The effect of each transaction: which tables it may write, the one event it appends,
    and the guarantee every later reader may rely on. */
module Effects {
  import Text
  import opened Tables
  import opened Transactions

  // ----- How tables evolve -----

  predicate UnitsEvolve(a: map<string, Unit>, b: map<string, Unit>) {
    forall x | x in a ::
      x in b && a[x].id == b[x].id && a[x].tenant == b[x].tenant
      && a[x].version <= b[x].version && (a[x].version == b[x].version ==> a[x] == b[x])
  }

  predicate MembershipsEvolve(a: map<string, Membership>, b: map<string, Membership>) {
    forall x | x in a :: x in b && a[x].tenant == b[x].tenant && a[x].user == b[x].user
  }

  predicate InvitationsEvolve(a: map<string, Invitation>, b: map<string, Invitation>) {
    forall x | x in a ::
      x in b && a[x].id == b[x].id && a[x].tenant == b[x].tenant
      && a[x].email == b[x].email && a[x].expiresAt == b[x].expiresAt
      && a[x].version <= b[x].version && (a[x].version == b[x].version ==> a[x] == b[x])
  }

  predicate GroupsEvolve(a: map<string, Group>, b: map<string, Group>) {
    forall x | x in a ::
      x in b && a[x].id == b[x].id && a[x].tenant == b[x].tenant && a[x].code == b[x].code
      && a[x].audit.createdAt == b[x].audit.createdAt && a[x].audit.createdBy == b[x].audit.createdBy
  }

  predicate GroupMembersEvolve(a: map<MemberKey, GroupMember>, b: map<MemberKey, GroupMember>) {
    forall k | k in a ::
      k in b && a[k].id == b[k].id && a[k].tenant == b[k].tenant
      && a[k].group == b[k].group && a[k].membership == b[k].membership
  }

  predicate QuotasEvolve(a: map<QuotaKey, Quota>, b: map<QuotaKey, Quota>) {
    forall k | k in a ::
      k in b && a[k].version <= b[k].version && (a[k].version == b[k].version ==> a[k] == b[k])
  }

  /** What every step, and so every stretch of a run, guarantees: rows stay, they keep their
      identity and tenant, and a versioned row that changes changes its version. */
  predicate Evolves(a: Database, b: Database) {
    && a.tenants.Keys <= b.tenants.Keys
    && UnitsEvolve(a.units, b.units)
    && MembershipsEvolve(a.memberships, b.memberships)
    && InvitationsEvolve(a.invitations, b.invitations)
    && GroupsEvolve(a.groups, b.groups)
    && GroupMembersEvolve(a.groupMembers, b.groupMembers)
    && QuotasEvolve(a.quotas, b.quotas)
    && a.outbox <= b.outbox
  }

  lemma EvolvesReflexive(a: Database)
    ensures Evolves(a, a)
  {
  }

  lemma EvolvesTransitive(a: Database, b: Database, c: Database)
    requires Evolves(a, b) && Evolves(b, c)
    ensures Evolves(a, c)
  {
  }

  /** The rows of each invitation and unit carry their own key. */
  predicate Keyed(db: Database) {
    && (forall x | x in db.units :: db.units[x].id == x)
    && (forall x | x in db.invitations :: db.invitations[x].id == x)
    && (forall k | k in db.groupMembers :: db.groupMembers[k].group == k.0 && db.groupMembers[k].membership == k.1)
  }

  // ----- What a transaction may write -----

  /** The part of the domain a request belongs to. */
  datatype Family = Tenants | Units | Memberships | Invitations | Groups | Quotas

  /** A commit of this family leaves all tables of the other families as they were. */
  predicate Frame(family: Family, a: Database, b: Database) {
    match family
    case Tenants => b == a.(tenants := b.tenants, memberships := b.memberships, outbox := b.outbox)
    case Units => b == a.(units := b.units, outbox := b.outbox)
    case Memberships => b == a.(memberships := b.memberships, outbox := b.outbox)
    case Invitations => b == a.(invitations := b.invitations, memberships := b.memberships, outbox := b.outbox)
    case Groups => b == a.(groups := b.groups, groupMembers := b.groupMembers, outbox := b.outbox)
    case Quotas => b == a.(quotas := b.quotas, outbox := b.outbox)
  }

  predicate Announces(family: Family, event: Event) {
    match family
    case Tenants => event.TenantCreated? || event.TenantStatusChanged?
    case Units => event.UnitChanged?
    case Memberships => event.MembershipChanged?
    case Invitations => event.InvitationChanged?
    case Groups => event.GroupChanged?
    case Quotas => event.QuotaChanged?
  }

  /** A commit writes inside its family and appends exactly one event of that family;
      a request that does not commit changes neither tables nor outbox. */
  predicate OneEvent(family: Family, before: Database, outcome: Outcome) {
    if outcome.Commit? then
      && Frame(family, before, outcome.db)
      && |outcome.db.outbox| == |before.outbox| + 1 && before.outbox <= outcome.db.outbox
      && Announces(family, outcome.db.outbox[|before.outbox|])
    else outcome.After(before) == before
  }

  predicate Sound(family: Family, before: Database, outcome: Outcome) {
    && OneEvent(family, before, outcome)
    && (Keyed(before) ==> Evolves(before, outcome.After(before)) && Keyed(outcome.After(before)))
  }

  /** The tables a family writes evolve; with the frame, the whole database does. */
  predicate OwnTablesEvolve(family: Family, a: Database, b: Database) {
    match family
    case Tenants => a.tenants.Keys <= b.tenants.Keys && MembershipsEvolve(a.memberships, b.memberships)
    case Units => UnitsEvolve(a.units, b.units)
    case Memberships => MembershipsEvolve(a.memberships, b.memberships)
    case Invitations =>
      InvitationsEvolve(a.invitations, b.invitations) && MembershipsEvolve(a.memberships, b.memberships)
    case Groups => GroupsEvolve(a.groups, b.groups) && GroupMembersEvolve(a.groupMembers, b.groupMembers)
    case Quotas => QuotasEvolve(a.quotas, b.quotas)
  }

  lemma FrameEffect(family: Family, before: Database, outcome: Outcome)
    requires OneEvent(family, before, outcome)
    requires outcome.Commit? && Keyed(before) ==> OwnTablesEvolve(family, before, outcome.db) && Keyed(outcome.db)
    ensures Sound(family, before, outcome)
  {
  }

  lemma CreateTenantEffect(db: Database, id: string, code: string, name: string, owner: string, ownerMembership: string,
                           now: int, actor: string)
    ensures Sound(Tenants, db, CreateTenant(db, id, code, name, owner, ownerMembership, now, actor))
  {
    hide Evolves;
    FrameEffect(Tenants, db, CreateTenant(db, id, code, name, owner, ownerMembership, now, actor));
  }

  lemma UpdateTenantEffect(seen: Option<Tenant>, db: Database, id: string, name: string, status: string, version: int,
                           now: int, actor: string)
    ensures Sound(Tenants, db, UpdateTenant(seen, db, id, name, status, version, now, actor))
  {
    hide Evolves;
    FrameEffect(Tenants, db, UpdateTenant(seen, db, id, name, status, version, now, actor));
  }

  lemma CreateUnitEffect(seenTenant: Option<Tenant>, seenParent: Option<Unit>, db: Database, id: string, tenant: string,
                         parent: string, code: string, name: string, now: int, actor: string)
    ensures Sound(Units, db, CreateUnit(seenTenant, seenParent, db, id, tenant, parent, code, name, now, actor))
  {
    hide Evolves;
    FrameEffect(Units, db, CreateUnit(seenTenant, seenParent, db, id, tenant, parent, code, name, now, actor));
  }

  /** What a committed move has checked, and what it wrote. */
  lemma MoveCommitFacts(seen: Option<Unit>, seenParent: Option<Unit>, db: Database, id: string, parent: string,
                        name: string, status: string, version: int, now: int, actor: string)
    requires UpdateUnit(seen, seenParent, db, id, parent, name, status, version, now, actor).Commit?
    ensures seen.Some? && id in db.units && seen.value.version == db.units[id].version
    ensures parent != "" ==> seenParent.Some? && seenParent.value.tenant == seen.value.tenant && parent in db.units
    ensures UpdateUnit(seen, seenParent, db, id, parent, name, status, version, now, actor).db.units
         == MoveRows(db.units, id, seen.value.tenant, parent, name, status, seen.value.path, NewPath(seenParent, parent,
             id), now, actor)
  {
    hide UniquePaths, MoveRows;
  }

  lemma MoveRowsEvolve(units: map<string, Unit>, id: string, tenant: string, parent: string, name: string, status: string,
                       oldPath: string, newPath: string, now: int, actor: string)
    requires id in units
    ensures var after := MoveRows(units, id, tenant, parent, name, status, oldPath, newPath, now, actor);
            && UnitsEvolve(units, after) && after.Keys == units.Keys
            && forall x | x in units :: after[x].id == units[x].id
  {
    hide Text.Like, Text.From;
  }

  lemma UpdateUnitEffect(seen: Option<Unit>, seenParent: Option<Unit>, db: Database, id: string, parent: string, name: string,
                         status: string, version: int, now: int, actor: string)
    ensures Sound(Units, db, UpdateUnit(seen, seenParent, db, id, parent, name, status, version, now, actor))
  {
    hide Evolves, UniquePaths, MoveRows;
    if id in db.units && seen.Some? {
      MoveRowsEvolve(db.units, id, seen.value.tenant, parent, name, status, seen.value.path, NewPath(seenParent, parent,
          id), now, actor);
    }
    FrameEffect(Units, db, UpdateUnit(seen, seenParent, db, id, parent, name, status, version, now, actor));
  }

  lemma AddMembershipEffect(seenUnit: Option<Unit>, db: Database, id: string, tenant: string, user: string, unit: string,
                            now: int, actor: string)
    ensures Sound(Memberships, db, AddMembership(seenUnit, db, id, tenant, user, unit, now, actor))
  {
    hide Evolves;
    FrameEffect(Memberships, db, AddMembership(seenUnit, db, id, tenant, user, unit, now, actor));
  }

  lemma UpdateMembershipEffect(seen: Option<Membership>, seenUnit: Option<Unit>, db: Database, id: string, status: string,
                               unit: string, version: int, now: int, actor: string)
    ensures Sound(Memberships, db, UpdateMembership(seen, seenUnit, db, id, status, unit, version, now, actor))
  {
    hide Evolves;
    FrameEffect(Memberships, db, UpdateMembership(seen, seenUnit, db, id, status, unit, version, now, actor));
  }

  lemma CreateInvitationEffect(seenTenant: Option<Tenant>, db: Database, id: string, tenant: string, email: string,
                               expiresIn: int, now: int, actor: string)
    ensures Sound(Invitations, db, CreateInvitation(seenTenant, db, id, tenant, email, expiresIn, now, actor))
  {
    hide Evolves;
    FrameEffect(Invitations, db, CreateInvitation(seenTenant, db, id, tenant, email, expiresIn, now, actor));
  }

  lemma AcceptInvitationEffect(seen: Option<Invitation>, db: Database, user: string, membership: string, now: int,
                               actor: string)
    ensures Sound(Invitations, db, AcceptInvitation(seen, db, user, membership, now, actor))
  {
    hide Evolves;
    FrameEffect(Invitations, db, AcceptInvitation(seen, db, user, membership, now, actor));
  }

  lemma RevokeInvitationEffect(seen: Option<Invitation>, db: Database, id: string, version: int, now: int, actor: string)
    ensures Sound(Invitations, db, RevokeInvitation(seen, db, id, version, now, actor))
  {
    hide Evolves;
    FrameEffect(Invitations, db, RevokeInvitation(seen, db, id, version, now, actor));
  }

  lemma CreateGroupEffect(db: Database, id: string, tenant: string, code: string, name: string, now: int, actor: string)
    ensures Sound(Groups, db, CreateGroup(db, id, tenant, code, name, now, actor))
  {
    hide Evolves;
    FrameEffect(Groups, db, CreateGroup(db, id, tenant, code, name, now, actor));
  }

  lemma UpdateGroupEffect(seen: Option<Group>, db: Database, id: string, name: string, status: string, version: int, now: int,
                          actor: string)
    ensures Sound(Groups, db, UpdateGroup(seen, db, id, name, status, version, now, actor))
  {
    hide Evolves;
    FrameEffect(Groups, db, UpdateGroup(seen, db, id, name, status, version, now, actor));
  }

  lemma AddGroupMemberEffect(seenGroup: Option<Group>, seenMembership: Option<Membership>, seen: Option<GroupMember>,
                             db: Database, id: string, group: string, membership: string, now: int, actor: string)
    ensures Sound(Groups, db, AddGroupMember(seenGroup, seenMembership, seen, db, id, group, membership, now, actor))
  {
    hide Evolves;
    FrameEffect(Groups, db, AddGroupMember(seenGroup, seenMembership, seen, db, id, group, membership, now, actor));
  }

  lemma RemoveGroupMemberEffect(seen: Option<GroupMember>, seenGroup: Option<Group>, db: Database, group: string,
                                membership: string, version: int, now: int, actor: string)
    ensures Sound(Groups, db, RemoveGroupMember(seen, seenGroup, db, group, membership, version, now, actor))
  {
    hide Evolves;
    FrameEffect(Groups, db, RemoveGroupMember(seen, seenGroup, db, group, membership, version, now, actor));
  }

  lemma SetQuotaEffect(seen: Option<Quota>, db: Database, tenant: string, key: string, limit: int, expected: int, now: int,
                       actor: string)
    ensures Sound(Quotas, db, SetQuota(seen, db, tenant, key, limit, expected, now, actor))
  {
    hide Evolves;
    FrameEffect(Quotas, db, SetQuota(seen, db, tenant, key, limit, expected, now, actor));
  }

  lemma ConsumeQuotaEffect(db: Database, tenant: string, key: string, amount: int, now: int, actor: string)
    ensures Sound(Quotas, db, ConsumeQuota(db, tenant, key, amount, now, actor))
  {
    hide Evolves;
    FrameEffect(Quotas, db, ConsumeQuota(db, tenant, key, amount, now, actor));
  }
}
