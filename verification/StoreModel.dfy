/** The database as the repository drives it: statements that change one table each, and transactions
    that run several of them and roll back when one fails. Every transaction is proved to do exactly
    what its one-step specification says. */
module StoreModel {
  import opened Text
  import opened Tables
  import T = Transactions

  /** What the caller of a transaction sees: it agrees with the specification, and a commit that the
      database refuses leaves everything as it was. */
  predicate Implements(spec: Outcome, before: Database, after: Database, error: Option<Error>, commits: bool) {
    match spec
    case Abort(e) => error == Some(e) && after == before
    case NoChange => error == (if commits then None else Some(Internal)) && after == before
    case Commit(db) => if commits then error == None && after == db else error == Some(Internal) && after == before
  }

  class Store {
    var db: Database

    constructor ()
      ensures db == EMPTY
    {
      db := EMPTY;
    }

    // ----- Statements -----

    method AddOutbox(event: Event)
      modifies this
      ensures db == old(db).(outbox := old(db).outbox + [event])
    {
      db := db.(outbox := db.outbox + [event]);
    }

    method InsertTenant(row: Tenant) returns (error: Option<Error>)
      modifies this
      ensures error == if row.id in old(db).tenants || T.TenantCodeTaken(old(db).tenants, row.code) then Some(Conflict) else None
      ensures db == if error.None? then old(db).(tenants := old(db).tenants[row.id := row]) else old(db)
    {
      if row.id in db.tenants || T.TenantCodeTaken(db.tenants, row.code) {
        return Some(Conflict);
      }
      db := db.(tenants := db.tenants[row.id := row]);
      return None;
    }

    method InsertMembership(row: Membership) returns (error: Option<Error>)
      modifies this
      ensures error == T.MembershipViolation(old(db), row)
      ensures db == if error.None? then old(db).(memberships := old(db).memberships[row.id := row]) else old(db)
    {
      error := T.MembershipViolation(db, row);
      if error.None? {
        db := db.(memberships := db.memberships[row.id := row]);
      }
    }

    method InsertUnit(row: Unit) returns (error: Option<Error>)
      modifies this
      ensures error == T.UnitViolation(old(db), row)
      ensures db == if error.None? then old(db).(units := old(db).units[row.id := row]) else old(db)
    {
      error := T.UnitViolation(db, row);
      if error.None? {
        db := db.(units := db.units[row.id := row]);
      }
    }

    /** The first UPDATE of a move: one row, guarded by its version. */
    method UpdateUnitRow(id: string, version: int, parent: string, name: string, status: string, path: string,
                         now: int, actor: string) returns (error: Option<Error>)
      modifies this
      ensures var units := old(db).units;
              if id !in units || units[id].version != version then error == Some(StaleVersion) && db == old(db)
              else if parent != "" && parent !in units then error == Some(Internal) && db == old(db)
              else
                var units1 := units[id := T.Relocated(units[id], parent, name, status, path, now, actor)];
                if T.UniquePaths(units1) then error == None && db == old(db).(units := units1)
                else error == Some(Conflict) && db == old(db)
    {
      hide T.UniquePaths;
      if id !in db.units || db.units[id].version != version {
        return Some(StaleVersion);
      }
      if parent != "" && parent !in db.units {
        return Some(Internal);
      }
      var units := db.units[id := T.Relocated(db.units[id], parent, name, status, path, now, actor)];
      if !T.UniquePaths(units) {
        return Some(Conflict);
      }
      db := db.(units := units);
      return None;
    }

    /** The second UPDATE of a move: visit the rows in any order and rewrite those selected. */
    method RewritePaths(id: string, tenant: string, oldPath: string, newPath: string, now: int, actor: string)
      returns (error: Option<Error>)
      modifies this
      ensures var units2 := T.RewriteDescendants(old(db).units, id, tenant, oldPath, newPath, now, actor);
              if T.UniquePaths(units2) then error == None && db == old(db).(units := units2)
              else error == Some(Conflict) && db == old(db)
    {
      hide T.UniquePaths, T.Selected, T.Rebased;
      var before := db.units;
      var units := before;
      var todo := before.Keys;
      while todo != {}
        invariant todo <= before.Keys && units.Keys == before.Keys
        invariant forall y | y in before ::
                    units[y] == if y !in todo && T.Selected(before, y, id, tenant, oldPath)
                                then T.Rebased(before[y], oldPath, newPath, now, actor) else before[y]
        decreases todo
      {
        var y :| y in todo;
        if T.Selected(before, y, id, tenant, oldPath) {
          units := units[y := T.Rebased(before[y], oldPath, newPath, now, actor)];
        }
        todo := todo - {y};
      }
      assert units == T.RewriteDescendants(before, id, tenant, oldPath, newPath, now, actor);
      if !T.UniquePaths(units) {
        return Some(Conflict);
      }
      db := db.(units := units);
      return None;
    }

    method UpdateInvitationRow(id: string, version: int, status: string, acceptedBy: string, now: int, actor: string)
      returns (error: Option<Error>)
      modifies this
      ensures var rows := old(db).invitations;
              if id !in rows || rows[id].version != version then error == Some(StaleVersion) && db == old(db)
              else error == None
                   && db == old(db).(invitations := rows[id := T.Settled(rows[id], status, acceptedBy, now, actor)])
    {
      if id !in db.invitations || db.invitations[id].version != version {
        return Some(StaleVersion);
      }
      db := db.(invitations := db.invitations[id := T.Settled(db.invitations[id], status, acceptedBy, now, actor)]);
      return None;
    }

    method InsertQuota(row: Quota) returns (error: Option<Error>)
      modifies this
      ensures error == if (row.tenant, row.key) in old(db).quotas then Some(Conflict)
                       else if row.tenant !in old(db).tenants then Some(Internal) else None
      ensures db == if error.None? then old(db).(quotas := old(db).quotas[(row.tenant, row.key) := row]) else old(db)
    {
      if (row.tenant, row.key) in db.quotas {
        return Some(Conflict);
      }
      if row.tenant !in db.tenants {
        return Some(Internal);
      }
      db := db.(quotas := db.quotas[(row.tenant, row.key) := row]);
      return None;
    }

    method UpdateQuotaLimit(k: QuotaKey, version: int, limit: int, now: int, actor: string) returns (error: Option<Error>)
      modifies this
      ensures var rows := old(db).quotas;
              if k !in rows || rows[k].version != version then error == Some(StaleVersion) && db == old(db)
              else error == None
                   && db == old(db).(quotas := rows[k := rows[k].(limit := limit, version := rows[k].version + 1,
                                                                    audit := rows[k].audit.Touch(now, actor))])
    {
      if k !in db.quotas || db.quotas[k].version != version {
        return Some(StaleVersion);
      }
      var row := db.quotas[k];
      db := db.(quotas := db.quotas[k := row.(limit := limit, version := row.version + 1, audit := row.audit.Touch(now, actor))]);
      return None;
    }

    /** UPDATE ... WHERE used_value + amount <= limit_value, then SELECT the row it changed. */
    method ConsumeQuotaRow(k: QuotaKey, amount: int, now: int, actor: string) returns (consumed: Option<Quota>)
      modifies this
      ensures var rows := old(db).quotas;
              if k !in rows || rows[k].used + amount > rows[k].limit then consumed == None && db == old(db)
              else
                && consumed == Some(rows[k].(used := rows[k].used + amount, version := rows[k].version + 1,
                                             audit := rows[k].audit.Touch(now, actor)))
                && db == old(db).(quotas := rows[k := consumed.value])
    {
      if k !in db.quotas || db.quotas[k].used + amount > db.quotas[k].limit {
        return None;
      }
      var row := db.quotas[k];
      db := db.(quotas := db.quotas[k := row.(used := row.used + amount, version := row.version + 1,
                                              audit := row.audit.Touch(now, actor))]);
      return Some(db.quotas[k]);
    }

    method UpdateTenantRow(id: string, version: int, name: string, status: string, now: int, actor: string)
      returns (error: Option<Error>)
      modifies this
      ensures var rows := old(db).tenants;
              if id !in rows || rows[id].version != version then error == Some(StaleVersion) && db == old(db)
              else error == None
                   && db == old(db).(tenants := rows[id := rows[id].(name := name, status := status,
                                       version := rows[id].version + 1, audit := rows[id].audit.Touch(now, actor))])
    {
      if id !in db.tenants || db.tenants[id].version != version {
        return Some(StaleVersion);
      }
      var row := db.tenants[id];
      row := row.(name := name, status := status, version := row.version + 1, audit := row.audit.Touch(now, actor));
      db := db.(tenants := db.tenants[id := row]);
      return None;
    }

    method UpdateMembershipRow(id: string, version: int, status: string, unit: string, now: int, actor: string)
      returns (error: Option<Error>)
      modifies this
      ensures var rows := old(db).memberships;
              if id !in rows || rows[id].version != version then error == Some(StaleVersion) && db == old(db)
              else if unit != "" && unit !in old(db).units then error == Some(Internal) && db == old(db)
              else error == None
                   && db == old(db).(memberships := rows[id := rows[id].(status := status, primaryUnit := unit,
                                       version := rows[id].version + 1, audit := rows[id].audit.Touch(now, actor))])
    {
      if id !in db.memberships || db.memberships[id].version != version {
        return Some(StaleVersion);
      }
      if unit != "" && unit !in db.units {
        return Some(Internal);
      }
      var row := db.memberships[id];
      row := row.(status := status, primaryUnit := unit, version := row.version + 1, audit := row.audit.Touch(now, actor));
      db := db.(memberships := db.memberships[id := row]);
      return None;
    }

    method InsertInvitation(row: Invitation) returns (error: Option<Error>)
      modifies this
      ensures error == if row.id in old(db).invitations then Some(Conflict)
                       else if row.tenant !in old(db).tenants then Some(Internal) else None
      ensures db == if error.None? then old(db).(invitations := old(db).invitations[row.id := row]) else old(db)
    {
      if row.id in db.invitations {
        return Some(Conflict);
      }
      if row.tenant !in db.tenants {
        return Some(Internal);
      }
      db := db.(invitations := db.invitations[row.id := row]);
      return None;
    }

    method InsertGroup(row: Group) returns (error: Option<Error>)
      modifies this
      ensures error == if row.id in old(db).groups || T.GroupCodeTaken(old(db).groups, row.tenant, row.code) then Some(Conflict)
                       else if row.tenant !in old(db).tenants then Some(Internal) else None
      ensures db == if error.None? then old(db).(groups := old(db).groups[row.id := row]) else old(db)
    {
      if row.id in db.groups || T.GroupCodeTaken(db.groups, row.tenant, row.code) {
        return Some(Conflict);
      }
      if row.tenant !in db.tenants {
        return Some(Internal);
      }
      db := db.(groups := db.groups[row.id := row]);
      return None;
    }

    method UpdateGroupRow(id: string, version: int, name: string, status: string, now: int, actor: string)
      returns (error: Option<Error>)
      modifies this
      ensures var rows := old(db).groups;
              if id !in rows || rows[id].version != version then error == Some(StaleVersion) && db == old(db)
              else error == None
                   && db == old(db).(groups := rows[id := rows[id].(name := name, status := status,
                                       version := rows[id].version + 1, audit := rows[id].audit.Touch(now, actor))])
    {
      if id !in db.groups || db.groups[id].version != version {
        return Some(StaleVersion);
      }
      var row := db.groups[id];
      row := row.(name := name, status := status, version := row.version + 1, audit := row.audit.Touch(now, actor));
      db := db.(groups := db.groups[id := row]);
      return None;
    }

    method InsertGroupMember(row: GroupMember) returns (error: Option<Error>)
      modifies this
      ensures error == if (row.group, row.membership) in old(db).groupMembers then Some(Conflict)
                       else if row.tenant !in old(db).tenants || row.group !in old(db).groups
                            || row.membership !in old(db).memberships then Some(Internal) else None
      ensures db == if error.None? then old(db).(groupMembers := old(db).groupMembers[(row.group, row.membership) := row])
                    else old(db)
    {
      if (row.group, row.membership) in db.groupMembers {
        return Some(Conflict);
      }
      if row.tenant !in db.tenants || row.group !in db.groups || row.membership !in db.memberships {
        return Some(Internal);
      }
      db := db.(groupMembers := db.groupMembers[(row.group, row.membership) := row]);
      return None;
    }

    method UpdateGroupMemberRow(k: MemberKey, id: string, version: int, status: string, now: int, actor: string)
      returns (error: Option<Error>)
      modifies this
      ensures var rows := old(db).groupMembers;
              if k !in rows || rows[k].id != id || rows[k].version != version
              then error == Some(StaleVersion) && db == old(db)
              else error == None
                   && db == old(db).(groupMembers := rows[k := rows[k].(status := status,
                                       version := rows[k].version + 1, audit := rows[k].audit.Touch(now, actor))])
    {
      if k !in db.groupMembers || db.groupMembers[k].id != id || db.groupMembers[k].version != version {
        return Some(StaleVersion);
      }
      var row := db.groupMembers[k];
      row := row.(status := status, version := row.version + 1, audit := row.audit.Touch(now, actor));
      db := db.(groupMembers := db.groupMembers[k := row]);
      return None;
    }

    // ----- Transactions: begin, run, then commit or roll back -----

    method Finish(begun: Database, error: Option<Error>, commits: bool) returns (result: Option<Error>)
      modifies this
      ensures if error.Some? then result == error && db == begun
              else if commits then result == None && db == old(db)
              else result == Some(Internal) && db == begun
    {
      if error.Some? {
        db := begun;
        return error;
      }
      if !commits {
        db := begun;
        return Some(Internal);
      }
      return None;
    }

    method CreateTenant(id: string, code: string, name: string, owner: string, ownerMembership: string,
                        now: int, actor: string, commits: bool) returns (error: Option<Error>)
      modifies this
      ensures Implements(T.CreateTenant(old(db), id, code, name, owner, ownerMembership, now, actor), old(db), db, error, commits)
    {
      hide T.TenantCodeTaken, T.IsMember;
      if code == "" || name == "" || owner == "" {
        return Some(Invalid);
      }
      var tenant := Tenant(id, code, name, "active", 1, NewAudit(now, actor));
      var member := Membership(ownerMembership, id, owner, "active", "", 1, NewAudit(now, actor));
      var begun := db;
      error := InsertTenant(tenant);
      if error.None? {
        error := InsertMembership(member);
      }
      if error.None? {
        AddOutbox(TenantCreated(tenant, member));
      }
      error := Finish(begun, error, commits);
    }

    method CreateUnit(seenTenant: Option<Tenant>, seenParent: Option<Unit>, id: string, tenant: string, parent: string,
                      code: string, name: string, now: int, actor: string, commits: bool) returns (error: Option<Error>)
      modifies this
      ensures Implements(T.CreateUnit(seenTenant, seenParent, old(db), id, tenant, parent, code, name, now, actor),
                         old(db), db, error, commits)
      ensures error == None ==>
                && id !in old(db).units && id in db.units
                && var u := db.units[id];
                   && db == old(db).(units := old(db).units[id := u], outbox := old(db).outbox + [UnitChanged(u, "", "created")])
                   && u.tenant == tenant && u.parent == parent && u.code == code && u.name == name
                   && u.status == "active" && u.version == 1
    {
      hide T.CodeTaken, T.PathTaken;
      if tenant == "" || code == "" || name == "" {
        return Some(Invalid);
      }
      if seenTenant.None? {
        return Some(NotFound);
      }
      var path := "/" + id + "/";
      if parent != "" {
        if seenParent.None? {
          return Some(NotFound);
        }
        if seenParent.value.tenant != tenant || seenParent.value.status != "active" {
          return Some(Invalid);
        }
        path := seenParent.value.path + id + "/";
      }
      var row := Unit(id, tenant, parent, code, name, path, "active", 1, NewAudit(now, actor));
      var begun := db;
      error := InsertUnit(row);
      if error.None? {
        AddOutbox(UnitChanged(row, "", "created"));
      }
      error := Finish(begun, error, commits);
    }

    method UpdateUnit(seen: Option<Unit>, seenParent: Option<Unit>, id: string, parent: string, name: string,
                      status: string, version: int, now: int, actor: string, commits: bool) returns (error: Option<Error>)
      modifies this
      ensures Implements(T.UpdateUnit(seen, seenParent, old(db), id, parent, name, status, version, now, actor),
                         old(db), db, error, commits)
    {
      hide T.UniquePaths, T.RewriteDescendants;
      if id == "" || name == "" || version < 1 || (status != "active" && status != "disabled") {
        return Some(Invalid);
      }
      if seen.None? {
        return Some(NotFound);
      }
      var current := seen.value;
      if current.version != version {
        return Some(StaleVersion);
      }
      var newPath := "/" + id + "/";
      if parent != "" {
        if seenParent.None? {
          return Some(NotFound);
        }
        var above := seenParent.value;
        if above.tenant != current.tenant || above.status != "active" {
          return Some(Invalid);
        }
        if above.id == current.id || current.path <= above.path {
          return Some(Invalid);
        }
        newPath := above.path + id + "/";
      }
      var updated := current.(parent := parent, name := name, status := status, path := newPath,
                              audit := current.audit.Touch(now, actor));
      var begun := db;
      error := UpdateUnitRow(id, current.version, parent, name, status, newPath, now, actor);
      if error.None? && current.path != newPath {
        error := RewritePaths(id, current.tenant, current.path, newPath, now, actor);
      }
      if error.None? {
        AddOutbox(UnitChanged(updated, current.parent, "updated"));
      }
      error := Finish(begun, error, commits);
    }

    method AddMembership(seenUnit: Option<Unit>, id: string, tenant: string, user: string, unit: string,
                         now: int, actor: string, commits: bool) returns (error: Option<Error>)
      modifies this
      ensures Implements(T.AddMembership(seenUnit, old(db), id, tenant, user, unit, now, actor), old(db), db, error, commits)
    {
      hide T.IsMember;
      if tenant == "" || user == "" {
        return Some(Invalid);
      }
      if unit != "" {
        if seenUnit.None? {
          return Some(NotFound);
        }
        if seenUnit.value.tenant != tenant || seenUnit.value.status != "active" {
          return Some(Invalid);
        }
      }
      var begun := db;
      error := InsertMembership(Membership(id, tenant, user, "active", unit, 1, NewAudit(now, actor)));
      if error.None? {
        AddOutbox(MembershipChanged(id, tenant, user, "", "active"));
      }
      error := Finish(begun, error, commits);
    }

    method AcceptInvitation(seen: Option<Invitation>, user: string, membership: string, now: int, actor: string,
                            commits: bool) returns (error: Option<Error>)
      modifies this
      ensures Implements(T.AcceptInvitation(seen, old(db), user, membership, now, actor), old(db), db, error, commits)
      ensures error == None ==>
                && seen.Some? && seen.value.status == "pending" && now < seen.value.expiresAt
                && membership !in old(db).memberships && membership in db.memberships
                && db.memberships[membership].user == user && db.memberships[membership].tenant == seen.value.tenant
    {
      hide T.IsMember;
      if user == "" {
        return Some(Invalid);
      }
      if seen.None? {
        return Some(NotFound);
      }
      var invitation := seen.value;
      if invitation.status != "pending" || now >= invitation.expiresAt {
        return Some(Conflict);
      }
      var member := Membership(membership, invitation.tenant, user, "active", "", 1, NewAudit(now, actor));
      var event := T.Settled(invitation, "accepted", user, now, actor);
      var begun := db;
      error := UpdateInvitationRow(invitation.id, invitation.version, "accepted", user, now, actor);
      if error.None? {
        error := InsertMembership(member);
      }
      if error.None? {
        AddOutbox(InvitationChanged(event, "accepted"));
      }
      error := Finish(begun, error, commits);
    }

    method RevokeInvitation(seen: Option<Invitation>, id: string, version: int, now: int, actor: string, commits: bool)
      returns (error: Option<Error>)
      modifies this
      ensures Implements(T.RevokeInvitation(seen, old(db), id, version, now, actor), old(db), db, error, commits)
    {
      if id == "" || version < 1 {
        return Some(Invalid);
      }
      if seen.None? {
        return Some(NotFound);
      }
      if seen.value.status != "pending" {
        return Some(Conflict);
      }
      var event := seen.value.(status := "revoked", version := version + 1, audit := seen.value.audit.Touch(now, actor));
      var begun := db;
      error := UpdateInvitationRow(id, version, "revoked", seen.value.acceptedBy, now, actor);
      if error.None? {
        AddOutbox(InvitationChanged(event, "revoked"));
      }
      error := Finish(begun, error, commits);
    }

    method SetQuota(seen: Option<Quota>, tenant: string, key: string, limit: int, expected: int, now: int, actor: string,
                    commits: bool) returns (error: Option<Error>)
      modifies this
      ensures Implements(T.SetQuota(seen, old(db), tenant, key, limit, expected, now, actor), old(db), db, error, commits)
    {
      if tenant == "" || key == "" || limit < 0 || expected < 0 {
        return Some(Invalid);
      }
      var create := seen.None?;
      if create && expected != 0 {
        return Some(StaleVersion);
      }
      if !create && seen.value.version != expected {
        return Some(StaleVersion);
      }
      var value := if create then Quota(tenant, key, limit, 0, 1, NewAudit(now, actor))
                   else seen.value.(limit := limit, audit := seen.value.audit.Touch(now, actor));
      var event := if create then value else value.(version := value.version + 1);
      var begun := db;
      if create {
        error := InsertQuota(value);
      } else {
        error := UpdateQuotaLimit((tenant, key), value.version, limit, now, actor);
      }
      if error.None? {
        AddOutbox(QuotaChanged(event, 0, "limit_set"));
      }
      error := Finish(begun, error, commits);
    }

    /** `allowed` tells whether the amount was taken; a refusal for lack of quota is not an error. */
    method ConsumeQuota(tenant: string, key: string, amount: int, now: int, actor: string, commits: bool)
      returns (allowed: bool, error: Option<Error>)
      modifies this
      ensures var (k, rows) := ((tenant, key), old(db).quotas);
              && (allowed <==> commits && tenant != "" && key != "" && amount > 0
                               && k in rows && rows[k].used + amount <= rows[k].limit)
              && (!allowed ==> db == old(db))
              && (allowed ==> k in db.quotas && db.quotas[k].used == rows[k].used + amount
                              && db.quotas[k].limit == rows[k].limit && db.quotas[k].version == rows[k].version + 1
                              && db == old(db).(quotas := rows[k := db.quotas[k]],
                                                outbox := old(db).outbox + [QuotaChanged(db.quotas[k], amount, "consumed")]))
      ensures var spec := T.ConsumeQuota(old(db), tenant, key, amount, now, actor);
              && (spec != Abort(NotFound) ==> Implements(spec, old(db), db, error, commits))
              && (spec == Abort(NotFound) ==> error == Some(if commits then NotFound else Internal) && db == old(db))
              && (allowed <==> error == None && spec.Commit?)
    {
      allowed := false;
      if tenant == "" || key == "" || amount <= 0 {
        return false, Some(Invalid);
      }
      var begun := db;
      var consumed := ConsumeQuotaRow((tenant, key), amount, now, actor);
      if consumed.Some? {
        AddOutbox(QuotaChanged(consumed.value, amount, "consumed"));
      }
      error := Finish(begun, None, commits);
      if error.Some? {
        return false, error;
      }
      if consumed.None? && (tenant, key) !in db.quotas {
        return false, Some(NotFound);
      }
      allowed := consumed.Some?;
    }

    method UpdateTenant(seen: Option<Tenant>, id: string, name: string, status: string, version: int, now: int, actor: string,
                        commits: bool) returns (error: Option<Error>)
      modifies this
      ensures Implements(T.UpdateTenant(seen, old(db), id, name, status, version, now, actor), old(db), db, error, commits)
    {
      if id == "" || name == "" || version < 1 || !T.ValidTenantStatus(status) {
        return Some(Invalid);
      }
      if seen.None? {
        return Some(NotFound);
      }
      var begun := db;
      error := UpdateTenantRow(id, version, name, status, now, actor);
      if error.None? {
        AddOutbox(TenantStatusChanged(id, seen.value.status, status));
      }
      error := Finish(begun, error, commits);
    }

    method UpdateMembership(seen: Option<Membership>, seenUnit: Option<Unit>, id: string, status: string, unit: string,
                            version: int, now: int, actor: string, commits: bool) returns (error: Option<Error>)
      modifies this
      ensures Implements(T.UpdateMembership(seen, seenUnit, old(db), id, status, unit, version, now, actor),
                         old(db), db, error, commits)
    {
      if id == "" || version < 1 || !T.ValidMembershipStatus(status) {
        return Some(Invalid);
      }
      if seen.None? {
        return Some(NotFound);
      }
      var current := seen.value;
      if unit != "" {
        if seenUnit.None? {
          return Some(NotFound);
        }
        if seenUnit.value.tenant != current.tenant || seenUnit.value.status != "active" {
          return Some(Invalid);
        }
      }
      var begun := db;
      error := UpdateMembershipRow(id, version, status, unit, now, actor);
      if error.None? {
        AddOutbox(MembershipChanged(id, current.tenant, current.user, current.status, status));
      }
      error := Finish(begun, error, commits);
    }

    method CreateInvitation(seenTenant: Option<Tenant>, id: string, tenant: string, email: string, expiresIn: int, now: int,
                            actor: string, commits: bool) returns (error: Option<Error>)
      modifies this
      ensures Implements(T.CreateInvitation(seenTenant, old(db), id, tenant, email, expiresIn, now, actor),
                         old(db), db, error, commits)
    {
      if tenant == "" || email == "" || expiresIn <= 0 || expiresIn > T.MAX_INVITATION_LIFETIME {
        return Some(Invalid);
      }
      if seenTenant.None? {
        return Some(NotFound);
      }
      var row := Invitation(id, tenant, email, "pending", now + expiresIn, "", 1, NewAudit(now, actor));
      var begun := db;
      error := InsertInvitation(row);
      if error.None? {
        AddOutbox(InvitationChanged(row, "created"));
      }
      error := Finish(begun, error, commits);
    }

    method CreateGroup(id: string, tenant: string, code: string, name: string, now: int, actor: string, commits: bool)
      returns (error: Option<Error>)
      modifies this
      ensures Implements(T.CreateGroup(old(db), id, tenant, code, name, now, actor), old(db), db, error, commits)
    {
      hide T.GroupCodeTaken;
      if tenant == "" || code == "" || name == "" {
        return Some(Invalid);
      }
      var row := Group(id, tenant, code, name, "active", 1, NewAudit(now, actor));
      var begun := db;
      error := InsertGroup(row);
      if error.None? {
        AddOutbox(GroupChanged(row, "", "created"));
      }
      error := Finish(begun, error, commits);
    }

    method UpdateGroup(seen: Option<Group>, id: string, name: string, status: string, version: int, now: int, actor: string,
                       commits: bool) returns (error: Option<Error>)
      modifies this
      ensures Implements(T.UpdateGroup(seen, old(db), id, name, status, version, now, actor), old(db), db, error, commits)
    {
      if id == "" || name == "" || version < 1 || (status != "active" && status != "disabled") {
        return Some(Invalid);
      }
      if seen.None? {
        return Some(NotFound);
      }
      var event := seen.value.(name := name, status := status, version := version + 1,
                               audit := seen.value.audit.Touch(now, actor));
      var begun := db;
      error := UpdateGroupRow(id, version, name, status, now, actor);
      if error.None? {
        AddOutbox(GroupChanged(event, "", "updated"));
      }
      error := Finish(begun, error, commits);
    }

    /** A member already active is left alone, and no transaction is opened. */
    method AddGroupMember(seenGroup: Option<Group>, seenMembership: Option<Membership>, seen: Option<GroupMember>,
                          id: string, group: string, membership: string, now: int, actor: string, commits: bool)
      returns (error: Option<Error>)
      modifies this
      ensures var spec := T.AddGroupMember(seenGroup, seenMembership, seen, old(db), id, group, membership, now, actor);
              if spec.NoChange? then error == None && db == old(db) else Implements(spec, old(db), db, error, commits)
    {
      if seenGroup.None? || seenMembership.None? {
        return Some(NotFound);
      }
      var tenant := seenGroup.value.tenant;
      if tenant != seenMembership.value.tenant || seenGroup.value.status != "active" || seenMembership.value.status != "active" {
        return Some(Invalid);
      }
      if seen.Some? && seen.value.status == "active" {
        return None;
      }
      var begun := db;
      if seen.Some? {
        error := UpdateGroupMemberRow((group, membership), seen.value.id, seen.value.version, "active", now, actor);
      } else {
        error := InsertGroupMember(GroupMember(id, tenant, group, membership, "active", 1, NewAudit(now, actor)));
      }
      if error.None? {
        AddOutbox(GroupChanged(seenGroup.value, membership, "member_added"));
      }
      error := Finish(begun, error, commits);
    }

    method RemoveGroupMember(seen: Option<GroupMember>, seenGroup: Option<Group>, group: string, membership: string,
                             version: int, now: int, actor: string, commits: bool) returns (error: Option<Error>)
      modifies this
      ensures Implements(T.RemoveGroupMember(seen, seenGroup, old(db), group, membership, version, now, actor),
                         old(db), db, error, commits)
    {
      if seen.None? || seenGroup.None? {
        return Some(NotFound);
      }
      var begun := db;
      error := UpdateGroupMemberRow((group, membership), seen.value.id, version, "removed", now, actor);
      if error.None? {
        AddOutbox(GroupChanged(seenGroup.value, membership, "member_removed"));
      }
      error := Finish(begun, error, commits);
    }
  }
}
