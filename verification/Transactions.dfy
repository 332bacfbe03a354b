/** What each mutating request of the service does, as one atomic write.

    A request first reads rows, possibly long before it writes; those rows are the
    `seen` parameters. The write then happens all at once on the database `db` of
    the moment of commit, or not at all. */
module Transactions {
  import opened Text
  import opened Tables

  // ----- Constraints of the tables -----

  predicate UniquePaths(units: map<string, Unit>) {
    forall x, y | x in units && y in units && units[x].tenant == units[y].tenant && units[x].path == units[y].path
      :: x == y
  }

  predicate CodeTaken(units: map<string, Unit>, tenant: string, code: string) {
    exists x | x in units :: units[x].tenant == tenant && units[x].code == code
  }

  predicate PathTaken(units: map<string, Unit>, tenant: string, path: string) {
    exists x | x in units :: units[x].tenant == tenant && units[x].path == path
  }

  predicate IsMember(memberships: map<string, Membership>, tenant: string, user: string) {
    exists x | x in memberships :: memberships[x].tenant == tenant && memberships[x].user == user
  }

  predicate TenantCodeTaken(tenants: map<string, Tenant>, code: string) {
    exists x | x in tenants :: tenants[x].code == code
  }

  predicate GroupCodeTaken(groups: map<string, Group>, tenant: string, code: string) {
    exists x | x in groups :: groups[x].tenant == tenant && groups[x].code == code
  }

  /** The constraints an inserted membership row meets; the error a violation raises. */
  function MembershipViolation(db: Database, row: Membership): Option<Error> {
    if row.id in db.memberships || IsMember(db.memberships, row.tenant, row.user) then Some(Conflict)
    else if row.tenant !in db.tenants then Some(Internal)
    else if row.primaryUnit != "" && row.primaryUnit !in db.units then Some(Internal)
    else None
  }

  function UnitViolation(db: Database, row: Unit): Option<Error> {
    if row.id in db.units || CodeTaken(db.units, row.tenant, row.code) || PathTaken(db.units, row.tenant, row.path)
    then Some(Conflict)
    else if row.tenant !in db.tenants || (row.parent != "" && row.parent !in db.units) then Some(Internal)
    else None
  }

  // ----- Tenants -----

  predicate ValidTenantStatus(status: string) {
    status in {"pending", "active", "suspended", "closing", "closed"}
  }

  function CreateTenant(db: Database, id: string, code: string, name: string, owner: string, ownerMembership: string,
                        now: int, actor: string): Outcome
  {
    var tenant := Tenant(id, code, name, "active", 1, NewAudit(now, actor));
    var member := Membership(ownerMembership, id, owner, "active", "", 1, NewAudit(now, actor));
    if code == "" || name == "" || owner == "" then Abort(Invalid)
    else if id in db.tenants || TenantCodeTaken(db.tenants, code) then Abort(Conflict)
    else
      var db1 := db.(tenants := db.tenants[id := tenant]);
      match MembershipViolation(db1, member)
      case Some(error) => Abort(error)
      case None =>
        Commit(db1.(memberships := db.memberships[ownerMembership := member],
                    outbox := db.outbox + [TenantCreated(tenant, member)]))
  }

  function UpdateTenant(seen: Option<Tenant>, db: Database, id: string, name: string, status: string, version: int,
                        now: int, actor: string): Outcome
  {
    if id == "" || name == "" || version < 1 || !ValidTenantStatus(status) then Abort(Invalid)
    else if seen.None? then Abort(NotFound)
    else if id !in db.tenants || db.tenants[id].version != version then Abort(StaleVersion)
    else
      var row := db.tenants[id];
      var row' := row.(name := name, status := status, version := row.version + 1, audit := row.audit.Touch(now, actor));
      Commit(db.(tenants := db.tenants[id := row'],
                 outbox := db.outbox + [TenantStatusChanged(id, seen.value.status, status)]))
  }

  // ----- Organization units -----

  /** The path of a unit placed under the parent row that was read. */
  function NewPath(seenParent: Option<Unit>, parent: string, id: string): string {
    if parent != "" && seenParent.Some? then seenParent.value.path + id + "/" else "/" + id + "/"
  }

  function CreateUnit(seenTenant: Option<Tenant>, seenParent: Option<Unit>, db: Database,
                      id: string, tenant: string, parent: string, code: string, name: string,
                      now: int, actor: string): Outcome
  {
    if tenant == "" || code == "" || name == "" then Abort(Invalid)
    else if seenTenant.None? then Abort(NotFound)
    else if parent != "" && seenParent.None? then Abort(NotFound)
    else if parent != "" && (seenParent.value.tenant != tenant || seenParent.value.status != "active") then Abort(Invalid)
    else
      var row := Unit(id, tenant, parent, code, name, NewPath(seenParent, parent, id), "active", 1, NewAudit(now, actor));
      match UnitViolation(db, row)
      case Some(error) => Abort(error)
      case None =>
        Commit(db.(units := db.units[id := row], outbox := db.outbox + [UnitChanged(row, "", "created")]))
  }

  /** The row of the moved unit after the first UPDATE. */
  function Relocated(row: Unit, parent: string, name: string, status: string, path: string,
                     now: int, actor: string): Unit
  {
    row.(parent := parent, name := name, path := path, status := status, version := row.version + 1,
         audit := row.audit.Touch(now, actor))
  }

  /** A descendant row after the second UPDATE: the old prefix replaced, everything else kept. */
  function Rebased(row: Unit, oldPath: string, newPath: string, now: int, actor: string): Unit {
    row.(path := newPath + From(row.path, |oldPath|), version := row.version + 1, audit := row.audit.Touch(now, actor))
  }

  /** The rows the second UPDATE selects. */
  predicate Selected(units: map<string, Unit>, y: string, id: string, tenant: string, oldPath: string)
    requires y in units
  {
    units[y].tenant == tenant && Like(units[y].path, oldPath + "%") && y != id
  }

  /** UPDATE ... SET path = newPath || SUBSTRING(path, ...) WHERE tenant_id = ... AND path LIKE oldPath% AND id <> id. */
  function RewriteDescendants(units: map<string, Unit>, id: string, tenant: string, oldPath: string, newPath: string,
                              now: int, actor: string): map<string, Unit>
  {
    map y | y in units ::
      if Selected(units, y, id, tenant, oldPath) then Rebased(units[y], oldPath, newPath, now, actor) else units[y]
  }

  /** Both UPDATE statements of a move, applied to the unit table. */
  function MoveRows(units: map<string, Unit>, id: string, tenant: string, parent: string, name: string, status: string,
                    oldPath: string, newPath: string, now: int, actor: string): map<string, Unit>
    requires id in units
  {
    var units1 := units[id := Relocated(units[id], parent, name, status, newPath, now, actor)];
    if oldPath == newPath then units1
    else RewriteDescendants(units1, id, tenant, oldPath, newPath, now, actor)
  }

  function UpdateUnit(seen: Option<Unit>, seenParent: Option<Unit>, db: Database,
                      id: string, parent: string, name: string, status: string, version: int,
                      now: int, actor: string): Outcome
  {
    if id == "" || name == "" || version < 1 || status !in {"active", "disabled"} then Abort(Invalid)
    else if seen.None? then Abort(NotFound)
    else if seen.value.version != version then Abort(StaleVersion)
    else if parent != "" && seenParent.None? then Abort(NotFound)
    else if parent != "" && (seenParent.value.tenant != seen.value.tenant || seenParent.value.status != "active")
    then Abort(Invalid)
    else if parent != "" && (seenParent.value.id == seen.value.id || seen.value.path <= seenParent.value.path)
    then Abort(Invalid)
    else if id !in db.units || db.units[id].version != version then Abort(StaleVersion)
    else if parent != "" && parent !in db.units then Abort(Internal)
    else
      var oldPath := seen.value.path;
      var newPath := NewPath(seenParent, parent, id);
      var units1 := db.units[id := Relocated(db.units[id], parent, name, status, newPath, now, actor)];
      var units2 := MoveRows(db.units, id, seen.value.tenant, parent, name, status, oldPath, newPath, now, actor);
      var updated := seen.value.(parent := parent, name := name, status := status, path := newPath,
                                 audit := seen.value.audit.Touch(now, actor));
      if !UniquePaths(units1) || !UniquePaths(units2) then Abort(Conflict)
      else Commit(db.(units := units2, outbox := db.outbox + [UnitChanged(updated, seen.value.parent, "updated")]))
  }

  // ----- Memberships -----

  predicate ValidMembershipStatus(status: string) {
    status in {"invited", "active", "disabled", "removed"}
  }

  /** validateMembershipOrganization on the unit row that was read. */
  function PrimaryUnitError(seenUnit: Option<Unit>, tenant: string, unit: string): Option<Error> {
    if unit == "" then None
    else if seenUnit.None? then Some(NotFound)
    else if seenUnit.value.tenant != tenant || seenUnit.value.status != "active" then Some(Invalid)
    else None
  }

  function AddMembership(seenUnit: Option<Unit>, db: Database, id: string, tenant: string, user: string, unit: string,
                         now: int, actor: string): Outcome
  {
    var row := Membership(id, tenant, user, "active", unit, 1, NewAudit(now, actor));
    if tenant == "" || user == "" then Abort(Invalid)
    else match PrimaryUnitError(seenUnit, tenant, unit)
      case Some(error) => Abort(error)
      case None =>
        match MembershipViolation(db, row)
        case Some(error) => Abort(error)
        case None =>
          Commit(db.(memberships := db.memberships[id := row],
                     outbox := db.outbox + [MembershipChanged(id, tenant, user, "", "active")]))
  }

  function UpdateMembership(seen: Option<Membership>, seenUnit: Option<Unit>, db: Database,
                            id: string, status: string, unit: string, version: int, now: int, actor: string): Outcome
  {
    if id == "" || version < 1 || !ValidMembershipStatus(status) then Abort(Invalid)
    else if seen.None? then Abort(NotFound)
    else match PrimaryUnitError(seenUnit, seen.value.tenant, unit)
      case Some(error) => Abort(error)
      case None =>
        if id !in db.memberships || db.memberships[id].version != version then Abort(StaleVersion)
        else if unit != "" && unit !in db.units then Abort(Internal)
        else
          var row := db.memberships[id];
          var row' := row.(status := status, primaryUnit := unit, version := row.version + 1,
                           audit := row.audit.Touch(now, actor));
          Commit(db.(memberships := db.memberships[id := row'],
                     outbox := db.outbox + [MembershipChanged(id, seen.value.tenant, seen.value.user, seen.value.status, status)]))
  }

  // ----- Invitations -----

  /** Thirty days, in nanoseconds. */
  const MAX_INVITATION_LIFETIME := 30 * 24 * 3600 * 1_000_000_000

  function CreateInvitation(seenTenant: Option<Tenant>, db: Database, id: string, tenant: string, email: string,
                            expiresIn: int, now: int, actor: string): Outcome
  {
    if tenant == "" || email == "" || expiresIn <= 0 || expiresIn > MAX_INVITATION_LIFETIME then Abort(Invalid)
    else if seenTenant.None? then Abort(NotFound)
    else if id in db.invitations then Abort(Conflict)
    else if tenant !in db.tenants then Abort(Internal)
    else
      var row := Invitation(id, tenant, email, "pending", now + expiresIn, "", 1, NewAudit(now, actor));
      Commit(db.(invitations := db.invitations[id := row], outbox := db.outbox + [InvitationChanged(row, "created")]))
  }

  /** UPDATE invitations SET status, accepted_by_user_id, version + 1, ... on one row. */
  function Settled(row: Invitation, status: string, acceptedBy: string, now: int, actor: string): Invitation {
    row.(status := status, acceptedBy := acceptedBy, version := row.version + 1, audit := row.audit.Touch(now, actor))
  }

  function AcceptInvitation(seen: Option<Invitation>, db: Database, user: string, membership: string,
                            now: int, actor: string): Outcome
  {
    if user == "" then Abort(Invalid)
    else if seen.None? then Abort(NotFound)
    else if seen.value.status != "pending" || now >= seen.value.expiresAt then Abort(Conflict)
    else
      var id := seen.value.id;
      if id !in db.invitations || db.invitations[id].version != seen.value.version then Abort(StaleVersion)
      else
        var member := Membership(membership, seen.value.tenant, user, "active", "", 1, NewAudit(now, actor));
        match MembershipViolation(db, member)
        case Some(error) => Abort(error)
        case None =>
          var event := InvitationChanged(Settled(seen.value, "accepted", user, now, actor), "accepted");
          Commit(db.(invitations := db.invitations[id := Settled(db.invitations[id], "accepted", user, now, actor)],
                     memberships := db.memberships[membership := member],
                     outbox := db.outbox + [event]))
  }

  function RevokeInvitation(seen: Option<Invitation>, db: Database, id: string, version: int,
                            now: int, actor: string): Outcome
  {
    if id == "" || version < 1 then Abort(Invalid)
    else if seen.None? then Abort(NotFound)
    else if seen.value.status != "pending" then Abort(Conflict)
    else if id !in db.invitations || db.invitations[id].version != version then Abort(StaleVersion)
    else
      var event := InvitationChanged(seen.value.(status := "revoked", version := version + 1,
                                                 audit := seen.value.audit.Touch(now, actor)), "revoked");
      Commit(db.(invitations := db.invitations[id := Settled(db.invitations[id], "revoked", seen.value.acceptedBy, now, actor)],
                 outbox := db.outbox + [event]))
  }

  // ----- Groups -----

  function CreateGroup(db: Database, id: string, tenant: string, code: string, name: string,
                       now: int, actor: string): Outcome
  {
    var row := Group(id, tenant, code, name, "active", 1, NewAudit(now, actor));
    if tenant == "" || code == "" || name == "" then Abort(Invalid)
    else if id in db.groups || GroupCodeTaken(db.groups, tenant, code) then Abort(Conflict)
    else if tenant !in db.tenants then Abort(Internal)
    else Commit(db.(groups := db.groups[id := row], outbox := db.outbox + [GroupChanged(row, "", "created")]))
  }

  function UpdateGroup(seen: Option<Group>, db: Database, id: string, name: string, status: string, version: int,
                       now: int, actor: string): Outcome
  {
    if id == "" || name == "" || version < 1 || status !in {"active", "disabled"} then Abort(Invalid)
    else if seen.None? then Abort(NotFound)
    else if id !in db.groups || db.groups[id].version != version then Abort(StaleVersion)
    else
      var row := db.groups[id];
      var row' := row.(name := name, status := status, version := row.version + 1, audit := row.audit.Touch(now, actor));
      var event := seen.value.(name := name, status := status, version := version + 1,
                               audit := seen.value.audit.Touch(now, actor));
      Commit(db.(groups := db.groups[id := row'], outbox := db.outbox + [GroupChanged(event, "", "updated")]))
  }

  function AddGroupMember(seenGroup: Option<Group>, seenMembership: Option<Membership>, seen: Option<GroupMember>,
                          db: Database, id: string, group: string, membership: string, now: int, actor: string): Outcome
  {
    var key := (group, membership);
    if seenGroup.None? || seenMembership.None? then Abort(NotFound)
    else if seenGroup.value.tenant != seenMembership.value.tenant
         || seenGroup.value.status != "active" || seenMembership.value.status != "active" then Abort(Invalid)
    else if seen.Some? && seen.value.status == "active" then NoChange
    else
      var event := GroupChanged(seenGroup.value, membership, "member_added");
      if seen.None? then
        var row := GroupMember(id, seenGroup.value.tenant, group, membership, "active", 1, NewAudit(now, actor));
        if key in db.groupMembers then Abort(Conflict)
        else if row.tenant !in db.tenants || group !in db.groups || membership !in db.memberships then Abort(Internal)
        else Commit(db.(groupMembers := db.groupMembers[key := row], outbox := db.outbox + [event]))
      else if key !in db.groupMembers || db.groupMembers[key].id != seen.value.id
           || db.groupMembers[key].version != seen.value.version then Abort(StaleVersion)
      else
        var row := db.groupMembers[key];
        var row' := row.(status := "active", version := row.version + 1, audit := row.audit.Touch(now, actor));
        Commit(db.(groupMembers := db.groupMembers[key := row'], outbox := db.outbox + [event]))
  }

  function RemoveGroupMember(seen: Option<GroupMember>, seenGroup: Option<Group>, db: Database,
                             group: string, membership: string, version: int, now: int, actor: string): Outcome
  {
    var key := (group, membership);
    if seen.None? || seenGroup.None? then Abort(NotFound)
    else if key !in db.groupMembers || db.groupMembers[key].id != seen.value.id || db.groupMembers[key].version != version
    then Abort(StaleVersion)
    else
      var row := db.groupMembers[key];
      var row' := row.(status := "removed", version := row.version + 1, audit := row.audit.Touch(now, actor));
      Commit(db.(groupMembers := db.groupMembers[key := row'],
                 outbox := db.outbox + [GroupChanged(seenGroup.value, membership, "member_removed")]))
  }

  // ----- Quotas -----

  function SetQuota(seen: Option<Quota>, db: Database, tenant: string, key: string, limit: int, expected: int,
                    now: int, actor: string): Outcome
  {
    var k := (tenant, key);
    if tenant == "" || key == "" || limit < 0 || expected < 0 then Abort(Invalid)
    else if seen.None? then
      var row := Quota(tenant, key, limit, 0, 1, NewAudit(now, actor));
      if expected != 0 then Abort(StaleVersion)
      else if k in db.quotas then Abort(Conflict)
      else if tenant !in db.tenants then Abort(Internal)
      else Commit(db.(quotas := db.quotas[k := row], outbox := db.outbox + [QuotaChanged(row, 0, "limit_set")]))
    else if seen.value.version != expected then Abort(StaleVersion)
    else if k !in db.quotas || db.quotas[k].version != expected then Abort(StaleVersion)
    else
      var event := seen.value.(limit := limit, version := expected + 1, audit := seen.value.audit.Touch(now, actor));
      var row := db.quotas[k];
      var row' := row.(limit := limit, version := row.version + 1, audit := row.audit.Touch(now, actor));
      Commit(db.(quotas := db.quotas[k := row'], outbox := db.outbox + [QuotaChanged(event, 0, "limit_set")]))
  }

  function ConsumeQuota(db: Database, tenant: string, key: string, amount: int, now: int, actor: string): Outcome {
    var k := (tenant, key);
    if tenant == "" || key == "" || amount <= 0 then Abort(Invalid)
    else if k !in db.quotas then Abort(NotFound)
    else if db.quotas[k].used + amount > db.quotas[k].limit then NoChange
    else
      var row := db.quotas[k];
      var row' := row.(used := row.used + amount, version := row.version + 1, audit := row.audit.Touch(now, actor));
      Commit(db.(quotas := db.quotas[k := row'], outbox := db.outbox + [QuotaChanged(row', amount, "consumed")]))
  }
}
