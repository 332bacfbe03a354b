/** What each request promises, in terms of the tables and the request alone: on fresh reads, exactly when it
    commits and how it is refused; and, column by column, what a commit leaves in the row and in the outbox. */
module Promises {
  import opened Text
  import opened Tables
  import opened Forest
  import opened Transactions
  import opened Moves

  // ----- Units -----

  predicate CreateUnitAnswer(db: Database, out: Outcome, id: string, tenant: string, parent: string,
                             code: string, name: string)
  {
    var filled := tenant != "" && code != "" && name != "";
    var known := tenant in db.tenants && (parent == "" || parent in db.units);
    var placed := parent == "" || (parent in db.units && db.units[parent].tenant == tenant && db.units[parent].status == "active");
    var free := id !in db.units && forall x | x in db.units :: db.units[x].tenant == tenant ==> db.units[x].code != code;
    && (out.Commit? <==> filled && known && placed && free)
    && (out == Abort(Invalid) <==> !filled || (known && !placed))
    && (out == Abort(NotFound) <==> filled && !known)
    && (out == Abort(Conflict) <==> filled && known && placed && !free)
  }

  predicate CreateUnitWrite(db: Database, out: Outcome, id: string, tenant: string, parent: string,
                            code: string, name: string, now: int, actor: string)
  {
    out.Commit? ==>
      && id !in db.units && id in out.db.units
      && var u := out.db.units[id];
         && out.db == db.(units := db.units[id := u], outbox := db.outbox + [UnitChanged(u, "", "created")])
         && u.id == id && u.tenant == tenant && u.parent == parent && u.code == code && u.name == name
         && u.status == "active" && u.version == 1 && u.audit == Audit(now, actor, now, actor)
  }

  /** In a forest a new id gives a new path. */
  lemma NewPathFree(units: Units, tenant: string, parent: string, id: Uuid)
    requires Linked(units) && id !in units && (parent != "" ==> parent in units)
    ensures !PathTaken(units, tenant, BasePath(units, parent) + id + "/")
  {
    var base := BasePath(units, parent);
    if parent != "" {
      PathShape(units, parent);
    }
    forall x | x in units ensures units[x].path != base + id + "/" {
      assert LinkedAt(units, x);
      BaseShape(units, x);
      if units[x].path == base + id + "/" {
        PathNamesRow(BasePath(units, units[x].parent), x, base, id);
      }
    }
  }

  /** A create on fresh reads of a forest. */
  lemma CreateUnitAnswers(db: Database, id: Uuid, tenant: string, parent: string, code: string, name: string,
                          now: int, actor: string)
    requires Linked(db.units)
    ensures CreateUnitAnswer(db, CreateUnit(Get(db.tenants, tenant), Get(db.units, parent), db, id, tenant, parent, code,
                                            name, now, actor), id, tenant, parent, code, name)
  {
    if id !in db.units && (parent != "" ==> parent in db.units) {
      NewPathFree(db.units, tenant, parent, id);
      FreshPath(db.units, parent, id);
    }
    hide PathTaken, Linked, NewPath, BasePath;
  }

  lemma CreateUnitWrites(seenTenant: Option<Tenant>, seenParent: Option<Unit>, db: Database, id: string, tenant: string,
                         parent: string, code: string, name: string, now: int, actor: string)
    ensures CreateUnitWrite(db, CreateUnit(seenTenant, seenParent, db, id, tenant, parent, code, name, now, actor),
                            id, tenant, parent, code, name, now, actor)
  {
    hide PathTaken, CodeTaken, NewPath;
  }

  predicate UpdateUnitAnswer(db: Database, out: Outcome, id: string, parent: string, name: string, status: string,
                             version: int)
  {
    var valid := id != "" && name != "" && version >= 1 && (status == "active" || status == "disabled");
    var current := id in db.units && db.units[id].version == version;
    var placed := parent == "" || (parent in db.units && id in db.units && db.units[parent].tenant == db.units[id].tenant
                                   && db.units[parent].status == "active" && !(db.units[id].path <= db.units[parent].path));
    && (out.Commit? <==> valid && current && placed)
    && (out == Abort(StaleVersion) <==> valid && id in db.units && !current)
    && (out == Abort(NotFound) <==> valid && (id !in db.units || (current && parent != "" && parent !in db.units)))
    && (out == Abort(Invalid) <==> !valid || (current && (parent == "" || parent in db.units) && !placed))
  }

  /** The event of a move carries the row as it is written, but with the version from before the increment. */
  predicate UpdateUnitWrite(db: Database, out: Outcome, id: string, parent: string, name: string, status: string,
                            now: int, actor: string)
  {
    out.Commit? ==>
      && id in db.units && id in out.db.units
      && var (row, u) := (db.units[id], out.db.units[id]);
         && out.db == db.(units := out.db.units, outbox := db.outbox + [UnitChanged(u.(version := row.version), row.parent, "updated")])
         && u.id == row.id && u.tenant == row.tenant && u.code == row.code
         && u.parent == parent && u.name == name && u.status == status && u.version == row.version + 1
         && u.audit == Audit(row.audit.createdAt, row.audit.createdBy, now, actor)
  }

  /** A move on fresh reads of a forest, for any input. */
  lemma UpdateUnitAnswers(db: Database, id: string, parent: string, name: string, status: string, version: int,
                          now: int, actor: string)
    requires Linked(db.units)
    ensures UpdateUnitAnswer(db, UpdateUnit(Get(db.units, id), Get(db.units, parent), db, id, parent, name, status, version,
                                            now, actor), id, parent, name, status, version)
  {
    hide MoveRows, UniquePaths, Linked, NewPath, Relocated, Placeable;
    if id in db.units {
      RowsCarryIds(db.units, id);
      if parent in db.units {
        RowsCarryIds(db.units, parent);
      }
      if name != "" && status in {"active", "disabled"} && version >= 1 && MayMove(db.units, id, parent, version) {
        MoveAccepted(db, id, parent, name, status, version, now, actor);
      }
      PlaceableMeans(db.units, id, parent);
    }
  }

  lemma PlaceableMeans(units: Units, id: string, parent: string)
    requires id in units
    ensures Placeable(units, id, parent) <==>
            (parent == "" || (parent in units && units[parent].tenant == units[id].tenant && !(units[id].path <= units[parent].path)))
  {
  }

  /** The moved row itself is written by the first UPDATE alone. */
  lemma UpdateUnitWrites(seenParent: Option<Unit>, db: Database, id: string, parent: string, name: string, status: string,
                         version: int, now: int, actor: string)
    requires id in db.units
    ensures UpdateUnitWrite(db, UpdateUnit(Some(db.units[id]), seenParent, db, id, parent, name, status, version, now, actor),
                            id, parent, name, status, now, actor)
  {
    hide UniquePaths, NewPath;
    OwnRow(db.units, id, parent, name, status, db.units[id].path, NewPath(seenParent, parent, id), now, actor);
    hide MoveRows;
  }

  lemma OwnRow(units: Units, id: string, parent: string, name: string, status: string, oldPath: string, newPath: string,
               now: int, actor: string)
    requires id in units
    ensures var after := MoveRows(units, id, units[id].tenant, parent, name, status, oldPath, newPath, now, actor);
            id in after && after[id] == Relocated(units[id], parent, name, status, newPath, now, actor)
  {
    hide Like, From;
  }

  // ----- Tenants -----

  predicate CreateTenantAnswer(db: Database, out: Outcome, id: string, code: string, name: string, owner: string,
                               member: string)
  {
    var filled := code != "" && name != "" && owner != "";
    var free := id !in db.tenants && member !in db.memberships
                && (forall x | x in db.tenants :: db.tenants[x].code != code)
                && forall x | x in db.memberships :: db.memberships[x].tenant == id ==> db.memberships[x].user != owner;
    && (out.Commit? <==> filled && free)
    && (out == Abort(Invalid) <==> !filled)
    && (out == Abort(Conflict) <==> filled && !free)
  }

  predicate CreateTenantWrite(db: Database, out: Outcome, id: string, code: string, name: string, owner: string,
                              member: string, now: int, actor: string)
  {
    out.Commit? ==>
      && id in out.db.tenants && member in out.db.memberships
      && var (t, m) := (out.db.tenants[id], out.db.memberships[member]);
         && out.db == db.(tenants := db.tenants[id := t], memberships := db.memberships[member := m],
                          outbox := db.outbox + [TenantCreated(t, m)])
         && t.id == id && t.code == code && t.name == name && t.status == "active" && t.version == 1
         && m.id == member && m.tenant == id && m.user == owner && m.status == "active" && m.primaryUnit == "" && m.version == 1
         && t.audit == m.audit == Audit(now, actor, now, actor)
  }

  lemma CreateTenantKeeps(db: Database, id: string, code: string, name: string, owner: string, member: string,
                          now: int, actor: string)
    ensures var out := CreateTenant(db, id, code, name, owner, member, now, actor);
            && CreateTenantAnswer(db, out, id, code, name, owner, member)
            && CreateTenantWrite(db, out, id, code, name, owner, member, now, actor)
  {
  }

  predicate UpdateTenantAnswer(db: Database, out: Outcome, id: string, name: string, status: string, version: int) {
    var valid := id != "" && name != "" && version >= 1
                 && (status == "pending" || status == "active" || status == "suspended" || status == "closing" || status == "closed");
    && (out.Commit? <==> valid && id in db.tenants && db.tenants[id].version == version)
    && (out == Abort(Invalid) <==> !valid)
    && (out == Abort(NotFound) <==> valid && id !in db.tenants)
    && (out == Abort(StaleVersion) <==> valid && id in db.tenants && db.tenants[id].version != version)
  }

  predicate UpdateTenantWrite(db: Database, out: Outcome, id: string, name: string, status: string, previous: string,
                              now: int, actor: string)
  {
    out.Commit? ==>
      && id in db.tenants && id in out.db.tenants
      && var (row, t) := (db.tenants[id], out.db.tenants[id]);
         && out.db == db.(tenants := db.tenants[id := t], outbox := db.outbox + [TenantStatusChanged(id, previous, status)])
         && t.id == row.id && t.code == row.code && t.name == name && t.status == status && t.version == row.version + 1
         && t.audit == Audit(row.audit.createdAt, row.audit.createdBy, now, actor)
  }

  lemma UpdateTenantKeeps(seen: Option<Tenant>, db: Database, id: string, name: string, status: string, version: int,
                          now: int, actor: string)
    ensures var out := UpdateTenant(seen, db, id, name, status, version, now, actor);
            && (seen == Get(db.tenants, id) ==> UpdateTenantAnswer(db, out, id, name, status, version))
            && (seen.Some? ==> UpdateTenantWrite(db, out, id, name, status, seen.value.status, now, actor))
  {
  }

  // ----- Memberships -----

  /** A primary unit must be empty or an active unit of the tenant. */
  predicate Placed(units: Units, tenant: string, unit: string) {
    unit == "" || (unit in units && units[unit].tenant == tenant && units[unit].status == "active")
  }

  predicate NewMember(db: Database, id: string, tenant: string, user: string) {
    && id !in db.memberships
    && forall x | x in db.memberships :: db.memberships[x].tenant == tenant ==> db.memberships[x].user != user
  }

  predicate AddMembershipAnswer(db: Database, out: Outcome, id: string, tenant: string, user: string, unit: string) {
    var filled := tenant != "" && user != "";
    var (known, placed, free) := (unit == "" || unit in db.units, Placed(db.units, tenant, unit), NewMember(db, id, tenant, user));
    && (out.Commit? <==> filled && placed && free && tenant in db.tenants)
    && (out == Abort(Invalid) <==> !filled || (known && !placed))
    && (out == Abort(NotFound) <==> filled && !known)
    && (out == Abort(Conflict) <==> filled && placed && !free)
    && (out == Abort(Internal) <==> filled && placed && free && tenant !in db.tenants)
  }

  predicate AddMembershipWrite(db: Database, out: Outcome, id: string, tenant: string, user: string, unit: string,
                               now: int, actor: string)
  {
    out.Commit? ==>
      && id in out.db.memberships
      && var m := out.db.memberships[id];
         && out.db == db.(memberships := db.memberships[id := m],
                          outbox := db.outbox + [MembershipChanged(id, tenant, user, "", "active")])
         && m.id == id && m.tenant == tenant && m.user == user && m.status == "active" && m.primaryUnit == unit
         && m.version == 1 && m.audit == Audit(now, actor, now, actor)
  }

  lemma AddMembershipKeeps(seenUnit: Option<Unit>, db: Database, id: string, tenant: string, user: string, unit: string,
                           now: int, actor: string)
    ensures var out := AddMembership(seenUnit, db, id, tenant, user, unit, now, actor);
            && (seenUnit == Get(db.units, unit) ==> AddMembershipAnswer(db, out, id, tenant, user, unit))
            && AddMembershipWrite(db, out, id, tenant, user, unit, now, actor)
  {
  }

  predicate UpdateMembershipAnswer(db: Database, out: Outcome, id: string, status: string, unit: string, version: int) {
    var valid := id != "" && version >= 1
                 && (status == "invited" || status == "active" || status == "disabled" || status == "removed");
    var found := id in db.memberships;
    var known := unit == "" || unit in db.units;
    var placed := found && Placed(db.units, db.memberships[id].tenant, unit);
    var current := found && db.memberships[id].version == version;
    && (out.Commit? <==> valid && placed && current)
    && (out == Abort(Invalid) <==> !valid || (found && known && !placed))
    && (out == Abort(NotFound) <==> valid && !(found && known))
    && (out == Abort(StaleVersion) <==> valid && placed && !current)
  }

  predicate UpdateMembershipWrite(db: Database, out: Outcome, id: string, status: string, unit: string, previous: string,
                                  now: int, actor: string)
  {
    out.Commit? ==>
      && id in db.memberships && id in out.db.memberships
      && var (row, m) := (db.memberships[id], out.db.memberships[id]);
         && out.db == db.(memberships := db.memberships[id := m],
                          outbox := db.outbox + [MembershipChanged(id, row.tenant, row.user, previous, status)])
         && m.id == row.id && m.tenant == row.tenant && m.user == row.user
         && m.status == status && m.primaryUnit == unit && m.version == row.version + 1
         && m.audit == Audit(row.audit.createdAt, row.audit.createdBy, now, actor)
  }

  lemma UpdateMembershipKeeps(seen: Option<Membership>, seenUnit: Option<Unit>, db: Database, id: string, status: string,
                              unit: string, version: int, now: int, actor: string)
    requires seen.Some? && id in db.memberships ==>
               seen.value.tenant == db.memberships[id].tenant && seen.value.user == db.memberships[id].user
    ensures var out := UpdateMembership(seen, seenUnit, db, id, status, unit, version, now, actor);
            && (seen == Get(db.memberships, id) && seenUnit == Get(db.units, unit) ==>
                  UpdateMembershipAnswer(db, out, id, status, unit, version))
            && (seen.Some? ==> UpdateMembershipWrite(db, out, id, status, unit, seen.value.status, now, actor))
  {
  }

  // ----- Invitations -----

  /** At most thirty days, in nanoseconds. */
  predicate CreateInvitationAnswer(db: Database, out: Outcome, id: string, tenant: string, email: string, expiresIn: int) {
    var valid := tenant != "" && email != "" && 0 < expiresIn <= 2_592_000_000_000_000;
    && (out.Commit? <==> valid && tenant in db.tenants && id !in db.invitations)
    && (out == Abort(Invalid) <==> !valid)
    && (out == Abort(NotFound) <==> valid && tenant !in db.tenants)
    && (out == Abort(Conflict) <==> valid && tenant in db.tenants && id in db.invitations)
  }

  predicate CreateInvitationWrite(db: Database, out: Outcome, id: string, tenant: string, email: string, expiresIn: int,
                                  now: int, actor: string)
  {
    out.Commit? ==>
      && id in out.db.invitations
      && var i := out.db.invitations[id];
         && out.db == db.(invitations := db.invitations[id := i], outbox := db.outbox + [InvitationChanged(i, "created")])
         && i.id == id && i.tenant == tenant && i.email == email && i.status == "pending" && i.expiresAt == now + expiresIn
         && i.acceptedBy == "" && i.version == 1 && i.audit == Audit(now, actor, now, actor)
  }

  lemma CreateInvitationKeeps(seenTenant: Option<Tenant>, db: Database, id: string, tenant: string, email: string,
                              expiresIn: int, now: int, actor: string)
    ensures var out := CreateInvitation(seenTenant, db, id, tenant, email, expiresIn, now, actor);
            && (seenTenant == Get(db.tenants, tenant) ==> CreateInvitationAnswer(db, out, id, tenant, email, expiresIn))
            && CreateInvitationWrite(db, out, id, tenant, email, expiresIn, now, actor)
  {
  }

  predicate AcceptInvitationAnswer(db: Database, out: Outcome, x: string, user: string, member: string, now: int) {
    var found := x in db.invitations;
    var open := found && db.invitations[x].status == "pending" && now < db.invitations[x].expiresAt;
    var free := found && NewMember(db, member, db.invitations[x].tenant, user);
    var owned := found && db.invitations[x].tenant in db.tenants;
    && (out.Commit? <==> user != "" && open && free && owned)
    && (out == Abort(Invalid) <==> user == "")
    && (out == Abort(NotFound) <==> user != "" && !found)
    && (out == Abort(Conflict) <==> user != "" && found && !(open && free))
    && (out == Abort(Internal) <==> user != "" && open && free && !owned)
  }

  /** A committed acceptance finds the invitation pending and in time, settles it and inserts the member. */
  predicate AcceptInvitationWrite(db: Database, out: Outcome, x: string, user: string, member: string, now: int, actor: string) {
    out.Commit? ==>
      && x in db.invitations && db.invitations[x].status == "pending" && now < db.invitations[x].expiresAt
      && x in out.db.invitations && member in out.db.memberships
      && var (row, i, m) := (db.invitations[x], out.db.invitations[x], out.db.memberships[member]);
         && out.db == db.(invitations := db.invitations[x := i], memberships := db.memberships[member := m],
                          outbox := db.outbox + [InvitationChanged(i, "accepted")])
         && NewMember(db, member, row.tenant, user)
         && i.id == row.id && i.tenant == row.tenant && i.email == row.email && i.expiresAt == row.expiresAt
         && i.status == "accepted" && i.acceptedBy == user && i.version == row.version + 1
         && i.audit == Audit(row.audit.createdAt, row.audit.createdBy, now, actor)
         && m.id == member && m.tenant == row.tenant && m.user == user && m.status == "active" && m.primaryUnit == ""
         && m.version == 1 && m.audit == Audit(now, actor, now, actor)
  }

  /** Whatever an acceptance read: if the row was still at the version read, it is the row read. */
  lemma AcceptInvitationKeeps(seen: Option<Invitation>, db: Database, x: string, user: string, member: string,
                              now: int, actor: string)
    requires seen.Some? ==> seen.value.id == x
    requires seen.Some? && x in db.invitations && seen.value.version == db.invitations[x].version ==>
               seen.value == db.invitations[x]
    ensures var out := AcceptInvitation(seen, db, user, member, now, actor);
            && (seen == Get(db.invitations, x) ==> AcceptInvitationAnswer(db, out, x, user, member, now))
            && AcceptInvitationWrite(db, out, x, user, member, now, actor)
  {
  }

  predicate RevokeInvitationAnswer(db: Database, out: Outcome, x: string, version: int) {
    var valid := x != "" && version >= 1;
    var found := x in db.invitations;
    var pending := found && db.invitations[x].status == "pending";
    && (out.Commit? <==> valid && pending && db.invitations[x].version == version)
    && (out == Abort(Invalid) <==> !valid)
    && (out == Abort(NotFound) <==> valid && !found)
    && (out == Abort(Conflict) <==> valid && found && !pending)
    && (out == Abort(StaleVersion) <==> valid && pending && db.invitations[x].version != version)
  }

  predicate RevokeInvitationWrite(db: Database, out: Outcome, x: string, now: int, actor: string) {
    out.Commit? ==>
      && x in db.invitations && x in out.db.invitations
      && var (row, i) := (db.invitations[x], out.db.invitations[x]);
         && row.status == "pending"
         && out.db == db.(invitations := db.invitations[x := i], outbox := db.outbox + [InvitationChanged(i, "revoked")])
         && i.id == row.id && i.tenant == row.tenant && i.email == row.email && i.expiresAt == row.expiresAt
         && i.status == "revoked" && i.acceptedBy == row.acceptedBy && i.version == row.version + 1
         && i.audit == Audit(row.audit.createdAt, row.audit.createdBy, now, actor)
  }

  lemma RevokeInvitationKeeps(db: Database, x: string, version: int, now: int, actor: string)
    ensures var out := RevokeInvitation(Get(db.invitations, x), db, x, version, now, actor);
            RevokeInvitationAnswer(db, out, x, version) && RevokeInvitationWrite(db, out, x, now, actor)
  {
  }

  // ----- Groups -----

  predicate CreateGroupAnswer(db: Database, out: Outcome, id: string, tenant: string, code: string, name: string) {
    var filled := tenant != "" && code != "" && name != "";
    var free := id !in db.groups && forall x | x in db.groups :: db.groups[x].tenant == tenant ==> db.groups[x].code != code;
    && (out.Commit? <==> filled && free && tenant in db.tenants)
    && (out == Abort(Invalid) <==> !filled)
    && (out == Abort(Conflict) <==> filled && !free)
    && (out == Abort(Internal) <==> filled && free && tenant !in db.tenants)
  }

  predicate CreateGroupWrite(db: Database, out: Outcome, id: string, tenant: string, code: string, name: string,
                             now: int, actor: string)
  {
    out.Commit? ==>
      && id in out.db.groups
      && var g := out.db.groups[id];
         && out.db == db.(groups := db.groups[id := g], outbox := db.outbox + [GroupChanged(g, "", "created")])
         && g.id == id && g.tenant == tenant && g.code == code && g.name == name && g.status == "active" && g.version == 1
         && g.audit == Audit(now, actor, now, actor)
  }

  lemma CreateGroupKeeps(db: Database, id: string, tenant: string, code: string, name: string, now: int, actor: string)
    ensures var out := CreateGroup(db, id, tenant, code, name, now, actor);
            && CreateGroupAnswer(db, out, id, tenant, code, name)
            && CreateGroupWrite(db, out, id, tenant, code, name, now, actor)
  {
  }

  predicate UpdateGroupAnswer(db: Database, out: Outcome, id: string, name: string, status: string, version: int) {
    var valid := id != "" && name != "" && version >= 1 && (status == "active" || status == "disabled");
    && (out.Commit? <==> valid && id in db.groups && db.groups[id].version == version)
    && (out == Abort(Invalid) <==> !valid)
    && (out == Abort(NotFound) <==> valid && id !in db.groups)
    && (out == Abort(StaleVersion) <==> valid && id in db.groups && db.groups[id].version != version)
  }

  predicate UpdateGroupWrite(db: Database, out: Outcome, id: string, name: string, status: string, now: int, actor: string) {
    out.Commit? ==>
      && id in db.groups && id in out.db.groups
      && var (row, g) := (db.groups[id], out.db.groups[id]);
         && out.db == db.(groups := db.groups[id := g], outbox := db.outbox + [GroupChanged(g, "", "updated")])
         && g.id == row.id && g.tenant == row.tenant && g.code == row.code && g.name == name && g.status == status
         && g.version == row.version + 1 && g.audit == Audit(row.audit.createdAt, row.audit.createdBy, now, actor)
  }

  /** What an update never changes: identity, tenant, code and who created the group when. */
  predicate SameGroup(a: Group, b: Group) {
    && a.id == b.id && a.tenant == b.tenant && a.code == b.code
    && a.audit.createdAt == b.audit.createdAt && a.audit.createdBy == b.audit.createdBy
  }

  lemma UpdateGroupKeeps(seen: Option<Group>, db: Database, id: string, name: string, status: string, version: int,
                         now: int, actor: string)
    requires seen.Some? && id in db.groups ==> SameGroup(seen.value, db.groups[id])
    ensures var out := UpdateGroup(seen, db, id, name, status, version, now, actor);
            && (seen == Get(db.groups, id) ==> UpdateGroupAnswer(db, out, id, name, status, version))
            && UpdateGroupWrite(db, out, id, name, status, now, actor)
  {
  }

  predicate AddGroupMemberAnswer(db: Database, out: Outcome, group: string, membership: string) {
    var k := (group, membership);
    var known := group in db.groups && membership in db.memberships;
    var fit := known && db.groups[group].tenant == db.memberships[membership].tenant
               && db.groups[group].status == "active" && db.memberships[membership].status == "active";
    var active := k in db.groupMembers && db.groupMembers[k].status == "active";
    var owned := known && db.groups[group].tenant in db.tenants;
    && (out.Commit? <==> fit && !active && (k in db.groupMembers || owned))
    && (out.NoChange? <==> fit && active)
    && (out == Abort(NotFound) <==> !known)
    && (out == Abort(Invalid) <==> known && !fit)
    && (out == Abort(Internal) <==> fit && k !in db.groupMembers && !owned)
  }

  predicate AddGroupMemberWrite(db: Database, out: Outcome, id: string, group: string, membership: string, seenGroup: Group,
                                now: int, actor: string)
  {
    var k := (group, membership);
    out.Commit? ==>
      && k in out.db.groupMembers
      && var m := out.db.groupMembers[k];
         && out.db == db.(groupMembers := db.groupMembers[k := m],
                          outbox := db.outbox + [GroupChanged(seenGroup, membership, "member_added")])
         && m.status == "active"
         && if k in db.groupMembers then
              var row := db.groupMembers[k];
              && m.id == row.id && m.tenant == row.tenant && m.group == row.group && m.membership == row.membership
              && m.version == row.version + 1 && m.audit == Audit(row.audit.createdAt, row.audit.createdBy, now, actor)
            else
              && m.id == id && m.tenant == seenGroup.tenant && m.group == group && m.membership == membership
              && m.version == 1 && m.audit == Audit(now, actor, now, actor)
  }

  lemma AddGroupMemberKeeps(seenGroup: Option<Group>, seenMembership: Option<Membership>, seen: Option<GroupMember>,
                            db: Database, id: string, group: string, membership: string, now: int, actor: string)
    ensures var out := AddGroupMember(seenGroup, seenMembership, seen, db, id, group, membership, now, actor);
            && ((&& seenGroup == Get(db.groups, group) && seenMembership == Get(db.memberships, membership)
                 && seen == Get(db.groupMembers, (group, membership)))
                ==> AddGroupMemberAnswer(db, out, group, membership))
            && (seenGroup.Some? ==> AddGroupMemberWrite(db, out, id, group, membership, seenGroup.value, now, actor))
  {
  }

  predicate RemoveGroupMemberAnswer(db: Database, out: Outcome, group: string, membership: string, version: int) {
    var k := (group, membership);
    var known := k in db.groupMembers && group in db.groups;
    && (out.Commit? <==> known && db.groupMembers[k].version == version)
    && (out == Abort(NotFound) <==> !known)
    && (out == Abort(StaleVersion) <==> known && db.groupMembers[k].version != version)
  }

  predicate RemoveGroupMemberWrite(db: Database, out: Outcome, group: string, membership: string, seenGroup: Group,
                                   now: int, actor: string)
  {
    var k := (group, membership);
    out.Commit? ==>
      && k in db.groupMembers && k in out.db.groupMembers
      && var (row, m) := (db.groupMembers[k], out.db.groupMembers[k]);
         && out.db == db.(groupMembers := db.groupMembers[k := m],
                          outbox := db.outbox + [GroupChanged(seenGroup, membership, "member_removed")])
         && m.id == row.id && m.tenant == row.tenant && m.group == row.group && m.membership == row.membership
         && m.status == "removed" && m.version == row.version + 1
         && m.audit == Audit(row.audit.createdAt, row.audit.createdBy, now, actor)
  }

  lemma RemoveGroupMemberKeeps(seen: Option<GroupMember>, seenGroup: Option<Group>, db: Database, group: string,
                               membership: string, version: int, now: int, actor: string)
    ensures var out := RemoveGroupMember(seen, seenGroup, db, group, membership, version, now, actor);
            && (seen == Get(db.groupMembers, (group, membership)) && seenGroup == Get(db.groups, group) ==>
                  RemoveGroupMemberAnswer(db, out, group, membership, version))
            && (seenGroup.Some? ==> RemoveGroupMemberWrite(db, out, group, membership, seenGroup.value, now, actor))
  {
  }

  // ----- Quotas -----

  predicate SetQuotaAnswer(db: Database, out: Outcome, tenant: string, key: string, limit: int, version: int) {
    var k := (tenant, key);
    var valid := tenant != "" && key != "" && limit >= 0 && version >= 0;
    var current := version == if k in db.quotas then db.quotas[k].version else 0;
    && (out.Commit? <==> valid && current && (k in db.quotas || tenant in db.tenants))
    && (out == Abort(Invalid) <==> !valid)
    && (out == Abort(StaleVersion) <==> valid && !current)
    && (out == Abort(Internal) <==> valid && current && k !in db.quotas && tenant !in db.tenants)
  }

  predicate SetQuotaWrite(db: Database, out: Outcome, tenant: string, key: string, limit: int, now: int, actor: string) {
    var k := (tenant, key);
    out.Commit? ==>
      && k in out.db.quotas
      && var q := out.db.quotas[k];
         && out.db == db.(quotas := db.quotas[k := q], outbox := db.outbox + [QuotaChanged(q, 0, "limit_set")])
         && q.limit == limit
         && if k in db.quotas then
              var row := db.quotas[k];
              && q.tenant == row.tenant && q.key == row.key && q.used == row.used && q.version == row.version + 1
              && q.audit == Audit(row.audit.createdAt, row.audit.createdBy, now, actor)
            else
              q.tenant == tenant && q.key == key && q.used == 0 && q.version == 1 && q.audit == Audit(now, actor, now, actor)
  }

  lemma SetQuotaKeeps(seen: Option<Quota>, db: Database, tenant: string, key: string, limit: int, version: int,
                      now: int, actor: string)
    requires seen.Some? ==>
               (tenant, key) in db.quotas
               && (seen.value.version == db.quotas[(tenant, key)].version ==> seen.value == db.quotas[(tenant, key)])
    ensures var out := SetQuota(seen, db, tenant, key, limit, version, now, actor);
            && (seen == Get(db.quotas, (tenant, key)) ==> SetQuotaAnswer(db, out, tenant, key, limit, version))
            && SetQuotaWrite(db, out, tenant, key, limit, now, actor)
  {
  }

  /** A consume is accepted exactly when it fits under the limit. */
  predicate ConsumeQuotaAnswer(db: Database, out: Outcome, tenant: string, key: string, amount: int) {
    var k := (tenant, key);
    var valid := tenant != "" && key != "" && amount > 0;
    && (out.Commit? <==> valid && k in db.quotas && db.quotas[k].used + amount <= db.quotas[k].limit)
    && (out.NoChange? <==> valid && k in db.quotas && db.quotas[k].used + amount > db.quotas[k].limit)
    && (out == Abort(Invalid) <==> !valid)
    && (out == Abort(NotFound) <==> valid && k !in db.quotas)
  }

  predicate ConsumeQuotaWrite(db: Database, out: Outcome, tenant: string, key: string, amount: int, now: int, actor: string) {
    var k := (tenant, key);
    out.Commit? ==>
      && k in db.quotas && k in out.db.quotas
      && var (row, q) := (db.quotas[k], out.db.quotas[k]);
         && out.db == db.(quotas := db.quotas[k := q], outbox := db.outbox + [QuotaChanged(q, amount, "consumed")])
         && q.tenant == row.tenant && q.key == row.key && q.limit == row.limit && q.used == row.used + amount
         && q.version == row.version + 1 && q.audit == Audit(row.audit.createdAt, row.audit.createdBy, now, actor)
  }

  lemma ConsumeQuotaKeeps(db: Database, tenant: string, key: string, amount: int, now: int, actor: string)
    ensures var out := ConsumeQuota(db, tenant, key, amount, now, actor);
            && ConsumeQuotaAnswer(db, out, tenant, key, amount)
            && ConsumeQuotaWrite(db, out, tenant, key, amount, now, actor)
  {
  }
}
