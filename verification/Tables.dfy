/** The rows of the tenant database, the outbox, and the outcome of a transaction. */
module Tables {

  datatype Option<+T> = None | Some(value: T)

  datatype Audit = Audit(createdAt: int, createdBy: string, updatedAt: int, updatedBy: string)
  {
    function Touch(now: int, actor: string): Audit {
      this.(updatedAt := now, updatedBy := actor)
    }
  }

  function NewAudit(now: int, actor: string): Audit {
    Audit(now, actor, now, actor)
  }

  datatype Tenant = Tenant(id: string, code: string, name: string, status: string, version: int, audit: Audit)

  /** An organization unit; `parent == ""` stands for SQL NULL. */
  datatype Unit = Unit(id: string, tenant: string, parent: string, code: string, name: string,
                       path: string, status: string, version: int, audit: Audit)

  /** A membership; `primaryUnit == ""` stands for SQL NULL. */
  datatype Membership = Membership(id: string, tenant: string, user: string, status: string,
                                   primaryUnit: string, version: int, audit: Audit)

  datatype Invitation = Invitation(id: string, tenant: string, email: string, status: string, expiresAt: int,
                                   acceptedBy: string, version: int, audit: Audit)

  datatype Group = Group(id: string, tenant: string, code: string, name: string, status: string,
                         version: int, audit: Audit)

  datatype GroupMember = GroupMember(id: string, tenant: string, group: string, membership: string,
                                     status: string, version: int, audit: Audit)

  datatype Quota = Quota(tenant: string, key: string, limit: int, used: int, version: int, audit: Audit)

  /** (tenant, quota key): the primary key of the quota table. */
  type QuotaKey = (string, string)

  /** (group, membership): the unique key of the group member table. */
  type MemberKey = (string, string)

  datatype Event =
    | TenantCreated(newTenant: Tenant, owner: Membership)
    | TenantStatusChanged(tenantId: string, previous: string, current: string)
    | MembershipChanged(membershipId: string, memberTenant: string, user: string, previous: string, current: string)
    | UnitChanged(unit: Unit, previousParent: string, change: string)
    | InvitationChanged(invitation: Invitation, change: string)
    | GroupChanged(group: Group, membershipId: string, change: string)
    | QuotaChanged(quota: Quota, delta: int, change: string)

  datatype Database = Database(
    tenants: map<string, Tenant>,
    units: map<string, Unit>,
    memberships: map<string, Membership>,
    invitations: map<string, Invitation>,
    groups: map<string, Group>,
    groupMembers: map<MemberKey, GroupMember>,
    quotas: map<QuotaKey, Quota>,
    outbox: seq<Event>)

  const EMPTY := Database(map[], map[], map[], map[], map[], map[], map[], [])

  datatype Error = Invalid | NotFound | Conflict | StaleVersion | Internal

  /** What a request did: commit a new state, succeed without writing, or fail and roll back. */
  datatype Outcome = Commit(db: Database) | NoChange | Abort(error: Error)
  {
    /** The state in force afterwards. */
    function After(before: Database): Database {
      if Commit? then db else before
    }
  }

  function Get<K, V>(table: map<K, V>, key: K): Option<V> {
    if key in table then Some(table[key]) else None
  }
}
