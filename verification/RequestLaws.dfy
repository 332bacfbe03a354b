/** The promises of the requests, for requests as they occur in runs: reads of any age, then an atomic write. */
module RequestLaws {
  import opened Text
  import opened Tables
  import opened Forest
  import opened Transactions
  import opened Effects
  import opened Moves
  import opened Promises
  import opened Runs

  /** All reads of the step happen at the moment of its write. */
  predicate Fresh(h: History, step: Step) {
    step.first >= |h| - 1 && step.second >= |h| - 1 && step.third >= |h| - 1
  }

  lemma FreshReads(h: History, step: Step)
    requires Fresh(h, step)
    ensures At(h, step.first) == At(h, step.second) == At(h, step.third) == Now(h)
  {
  }

  // ----- When a request commits -----

  /** On fresh reads of a forest every request commits exactly when its promise says so, and is refused with the
      error its promise names. */
  lemma {:induction false} StepAnswers(h: History, step: Step)
    requires Fresh(h, step) && Linked(Now(h).units) && Keyed(Now(h))
    ensures var (db, out) := (Now(h), Perform(h, step));
            match step.request
            case ReqCreateTenant(id, code, name, owner, member) => CreateTenantAnswer(db, out, id, code, name, owner, member)
            case ReqUpdateTenant(id, name, status, version) => UpdateTenantAnswer(db, out, id, name, status, version)
            case ReqCreateUnit(id, tenant, parent, code, name) => CreateUnitAnswer(db, out, id, tenant, parent, code, name)
            case ReqUpdateUnit(id, parent, name, status, version) =>
              UpdateUnitAnswer(db, out, id, parent, name, status, version)
            case ReqAddMembership(id, tenant, user, unit) => AddMembershipAnswer(db, out, id, tenant, user, unit)
            case ReqUpdateMembership(id, status, unit, version) => UpdateMembershipAnswer(db, out, id, status, unit, version)
            case ReqCreateInvitation(id, tenant, email, expiresIn) =>
              CreateInvitationAnswer(db, out, id, tenant, email, expiresIn)
            case ReqAcceptInvitation(x, user, member) => AcceptInvitationAnswer(db, out, x, user, member, step.now)
            case ReqRevokeInvitation(x, version) => RevokeInvitationAnswer(db, out, x, version)
            case ReqCreateGroup(id, tenant, code, name) => CreateGroupAnswer(db, out, id, tenant, code, name)
            case ReqUpdateGroup(id, name, status, version) => UpdateGroupAnswer(db, out, id, name, status, version)
            case ReqAddGroupMember(_, group, membership) => AddGroupMemberAnswer(db, out, group, membership)
            case ReqRemoveGroupMember(group, membership, version) =>
              RemoveGroupMemberAnswer(db, out, group, membership, version)
            case ReqSetQuota(tenant, key, limit, version) => SetQuotaAnswer(db, out, tenant, key, limit, version)
            case ReqConsumeQuota(tenant, key, amount) => ConsumeQuotaAnswer(db, out, tenant, key, amount)
  {
    hide At, Now, Linked, Keyed, CreateTenant, UpdateTenant, CreateUnit, UpdateUnit, AddMembership, UpdateMembership,
        CreateInvitation, AcceptInvitation, RevokeInvitation, CreateGroup, UpdateGroup, AddGroupMember,
        RemoveGroupMember, SetQuota, ConsumeQuota, CreateTenantAnswer, UpdateTenantAnswer, CreateUnitAnswer,
        UpdateUnitAnswer, AddMembershipAnswer, UpdateMembershipAnswer, CreateInvitationAnswer, AcceptInvitationAnswer,
        RevokeInvitationAnswer, CreateGroupAnswer, UpdateGroupAnswer, AddGroupMemberAnswer, RemoveGroupMemberAnswer,
        SetQuotaAnswer, ConsumeQuotaAnswer;
    FreshReads(h, step);
    var (db, now, actor) := (Now(h), step.now, step.actor);
    match step.request {
      case ReqCreateTenant(id, code, name, owner, member) => CreateTenantKeeps(db, id, code, name, owner, member, now, actor);
      case ReqUpdateTenant(id, name, status, version) =>
        UpdateTenantKeeps(Get(db.tenants, id), db, id, name, status, version, now, actor);
      case ReqCreateUnit(id, tenant, parent, code, name) => CreateUnitAnswers(db, id, tenant, parent, code, name, now, actor);
      case ReqUpdateUnit(id, parent, name, status, version) =>
        UpdateUnitAnswers(db, id, parent, name, status, version, now, actor);
      case ReqAddMembership(id, tenant, user, unit) =>
        AddMembershipKeeps(Get(db.units, unit), db, id, tenant, user, unit, now, actor);
      case ReqUpdateMembership(id, status, unit, version) =>
        UpdateMembershipKeeps(Get(db.memberships, id), Get(db.units, unit), db, id, status, unit, version, now, actor);
      case ReqCreateInvitation(id, tenant, email, expiresIn) =>
        CreateInvitationKeeps(Get(db.tenants, tenant), db, id, tenant, email, expiresIn, now, actor);
      case ReqAcceptInvitation(x, user, member) =>
        OwnInvitationId(db, x);
        AcceptInvitationKeeps(Get(db.invitations, x), db, x, user, member, now, actor);
      case ReqRevokeInvitation(x, version) => RevokeInvitationKeeps(db, x, version, now, actor);
      case ReqCreateGroup(id, tenant, code, name) => CreateGroupKeeps(db, id, tenant, code, name, now, actor);
      case ReqUpdateGroup(id, name, status, version) =>
        UpdateGroupKeeps(Get(db.groups, id), db, id, name, status, version, now, actor);
      case ReqAddGroupMember(id, group, membership) =>
        AddGroupMemberKeeps(Get(db.groups, group), Get(db.memberships, membership), Get(db.groupMembers, (group, membership)),
                            db, id, group, membership, now, actor);
      case ReqRemoveGroupMember(group, membership, version) =>
        RemoveGroupMemberKeeps(Get(db.groupMembers, (group, membership)), Get(db.groups, group), db, group, membership,
                               version, now, actor);
      case ReqSetQuota(tenant, key, limit, version) =>
        SetQuotaKeeps(Get(db.quotas, (tenant, key)), db, tenant, key, limit, version, now, actor);
      case ReqConsumeQuota(tenant, key, amount) => ConsumeQuotaKeeps(db, tenant, key, amount, now, actor);
    }
  }

  lemma OwnInvitationId(db: Database, x: string)
    requires Keyed(db)
    ensures x in db.invitations ==> db.invitations[x].id == x
  {
  }

  // ----- What a commit writes, whatever the request read -----

  /** What the rows read earlier still share with the rows at the commit. */
  predicate Related(past: Database, db: Database) {
    && (forall x | x in past.units :: x in db.units && (past.units[x].version == db.units[x].version ==> past.units[x] == db.units[x]))
    && (forall x | x in past.memberships :: x in db.memberships
          && past.memberships[x].tenant == db.memberships[x].tenant && past.memberships[x].user == db.memberships[x].user)
    && (forall x | x in past.invitations :: past.invitations[x].id == x && x in db.invitations
          && (past.invitations[x].version == db.invitations[x].version ==> past.invitations[x] == db.invitations[x]))
    && (forall x | x in past.groups :: x in db.groups && SameGroup(past.groups[x], db.groups[x]))
    && (forall k | k in past.quotas :: k in db.quotas
          && (past.quotas[k].version == db.quotas[k].version ==> past.quotas[k] == db.quotas[k]))
  }

  lemma EarlierRelated(h: History, moment: nat)
    requires Coherent(h)
    ensures Related(At(h, moment), Now(h))
  {
    var i := if moment < |h| then moment else |h| - 1;
    assert Keyed(h[i]) && Evolves(h[i], h[|h| - 1]);
  }

  /** A committed request of any run leaves exactly the columns its promise names, and announces them; the previous status
      and the group in an event are those that were read. A revoke is covered if it was called with the version it read. */
  lemma {:induction false} StepWrites(h: History, step: Step)
    requires Coherent(h)
    ensures var (db, out, now, actor) := (Now(h), Perform(h, step), step.now, step.actor);
            var (one, two) := (At(h, step.first), At(h, step.second));
            match step.request
            case ReqCreateTenant(id, code, name, owner, member) =>
              CreateTenantWrite(db, out, id, code, name, owner, member, now, actor)
            case ReqUpdateTenant(id, name, status, version) =>
              id in one.tenants ==> UpdateTenantWrite(db, out, id, name, status, one.tenants[id].status, now, actor)
            case ReqCreateUnit(id, tenant, parent, code, name) =>
              CreateUnitWrite(db, out, id, tenant, parent, code, name, now, actor)
            case ReqUpdateUnit(id, parent, name, status, _) => UpdateUnitWrite(db, out, id, parent, name, status, now, actor)
            case ReqAddMembership(id, tenant, user, unit) => AddMembershipWrite(db, out, id, tenant, user, unit, now, actor)
            case ReqUpdateMembership(id, status, unit, _) =>
              id in one.memberships ==> UpdateMembershipWrite(db, out, id, status, unit, one.memberships[id].status, now, actor)
            case ReqCreateInvitation(id, tenant, email, expiresIn) =>
              CreateInvitationWrite(db, out, id, tenant, email, expiresIn, now, actor)
            case ReqAcceptInvitation(x, user, member) => AcceptInvitationWrite(db, out, x, user, member, now, actor)
            case ReqRevokeInvitation(x, version) =>
              x in one.invitations && one.invitations[x].version == version ==> RevokeInvitationWrite(db, out, x, now, actor)
            case ReqCreateGroup(id, tenant, code, name) => CreateGroupWrite(db, out, id, tenant, code, name, now, actor)
            case ReqUpdateGroup(id, name, status, _) => UpdateGroupWrite(db, out, id, name, status, now, actor)
            case ReqAddGroupMember(id, group, membership) =>
              group in one.groups ==> AddGroupMemberWrite(db, out, id, group, membership, one.groups[group], now, actor)
            case ReqRemoveGroupMember(group, membership, _) =>
              group in two.groups ==> RemoveGroupMemberWrite(db, out, group, membership, two.groups[group], now, actor)
            case ReqSetQuota(tenant, key, limit, _) => SetQuotaWrite(db, out, tenant, key, limit, now, actor)
            case ReqConsumeQuota(tenant, key, amount) => ConsumeQuotaWrite(db, out, tenant, key, amount, now, actor)
  {
    hide Coherent, At, Now, CreateTenant, UpdateTenant, CreateUnit, UpdateUnit, AddMembership, UpdateMembership,
        CreateInvitation, AcceptInvitation, RevokeInvitation, CreateGroup, UpdateGroup, AddGroupMember,
        RemoveGroupMember, SetQuota, ConsumeQuota, CreateTenantWrite, UpdateTenantWrite, CreateUnitWrite,
        UpdateUnitWrite, AddMembershipWrite, UpdateMembershipWrite, CreateInvitationWrite, AcceptInvitationWrite,
        RevokeInvitationWrite, CreateGroupWrite, UpdateGroupWrite, AddGroupMemberWrite, RemoveGroupMemberWrite,
        SetQuotaWrite, ConsumeQuotaWrite, SameGroup;
    EarlierRelated(h, step.first);
    var (db, now, actor) := (Now(h), step.now, step.actor);
    var (one, two, three) := (At(h, step.first), At(h, step.second), At(h, step.third));
    match step.request {
      case ReqCreateTenant(id, code, name, owner, member) => CreateTenantKeeps(db, id, code, name, owner, member, now, actor);
      case ReqUpdateTenant(id, name, status, version) =>
        UpdateTenantKeeps(Get(one.tenants, id), db, id, name, status, version, now, actor);
      case ReqCreateUnit(id, tenant, parent, code, name) =>
        CreateUnitWrites(Get(one.tenants, tenant), Get(two.units, parent), db, id, tenant, parent, code, name, now, actor);
      case ReqUpdateUnit(id, parent, name, status, version) =>
        UpdateUnitStep(Get(one.units, id), Get(two.units, parent), db, id, parent, name, status, version, now, actor);
      case ReqAddMembership(id, tenant, user, unit) =>
        AddMembershipKeeps(Get(one.units, unit), db, id, tenant, user, unit, now, actor);
      case ReqUpdateMembership(id, status, unit, version) =>
        UpdateMembershipKeeps(Get(one.memberships, id), Get(two.units, unit), db, id, status, unit, version, now, actor);
      case ReqCreateInvitation(id, tenant, email, expiresIn) =>
        CreateInvitationKeeps(Get(one.tenants, tenant), db, id, tenant, email, expiresIn, now, actor);
      case ReqAcceptInvitation(x, user, member) =>
        AcceptInvitationKeeps(Get(one.invitations, x), db, x, user, member, now, actor);
      case ReqRevokeInvitation(x, version) =>
        RevokeInvitationStep(Get(one.invitations, x), db, x, version, now, actor);
      case ReqCreateGroup(id, tenant, code, name) => CreateGroupKeeps(db, id, tenant, code, name, now, actor);
      case ReqUpdateGroup(id, name, status, version) =>
        UpdateGroupKeeps(Get(one.groups, id), db, id, name, status, version, now, actor);
      case ReqAddGroupMember(id, group, membership) =>
        AddGroupMemberKeeps(Get(one.groups, group), Get(two.memberships, membership), Get(three.groupMembers, (group, membership)),
                            db, id, group, membership, now, actor);
      case ReqRemoveGroupMember(group, membership, version) =>
        RemoveGroupMemberKeeps(Get(one.groupMembers, (group, membership)), Get(two.groups, group), db, group, membership,
                               version, now, actor);
      case ReqSetQuota(tenant, key, limit, version) =>
        SetQuotaKeeps(Get(one.quotas, (tenant, key)), db, tenant, key, limit, version, now, actor);
      case ReqConsumeQuota(tenant, key, amount) => ConsumeQuotaKeeps(db, tenant, key, amount, now, actor);
    }
  }

  /** A move that commits had read the row it writes. */
  lemma UpdateUnitStep(seen: Option<Unit>, seenParent: Option<Unit>, db: Database, id: string, parent: string, name: string,
                       status: string, version: int, now: int, actor: string)
    requires seen.Some? ==> id in db.units && (seen.value.version == db.units[id].version ==> seen.value == db.units[id])
    ensures UpdateUnitWrite(db, UpdateUnit(seen, seenParent, db, id, parent, name, status, version, now, actor),
                            id, parent, name, status, now, actor)
  {
    hide MoveRows, UniquePaths, NewPath, UpdateUnitWrite;
    var out := UpdateUnit(seen, seenParent, db, id, parent, name, status, version, now, actor);
    if out.Commit? {
      MoveCommitFacts(seen, seenParent, db, id, parent, name, status, version, now, actor);
      UpdateUnitWrites(seenParent, db, id, parent, name, status, version, now, actor);
    } else {
      NoCommit(db, out, id, parent, name, status, now, actor);
    }
  }

  lemma NoCommit(db: Database, out: Outcome, id: string, parent: string, name: string, status: string, now: int, actor: string)
    requires !out.Commit?
    ensures UpdateUnitWrite(db, out, id, parent, name, status, now, actor)
  {
  }

  lemma RevokeInvitationStep(seen: Option<Invitation>, db: Database, x: string, version: int, now: int, actor: string)
    requires seen.Some? ==>
               x in db.invitations && (seen.value.version == db.invitations[x].version ==> seen.value == db.invitations[x])
    ensures seen.Some? && seen.value.version == version ==>
              RevokeInvitationWrite(db, RevokeInvitation(seen, db, x, version, now, actor), x, now, actor)
  {
    RevokeInvitationKeeps(db, x, version, now, actor);
  }

  // ----- Laws of whole runs -----

  /** In every run every committed acceptance, however old its read, came before the invitation expired, found it
      pending, and made its user an active member of the invitation's tenant; and the deadline is the one the
      invitation has in every other state of the run. */
  lemma {:induction false} AcceptedInTime(steps: seq<Step>, i: nat, j: nat)
    requires i < |steps| && j <= |steps| && steps[i].request.ReqAcceptInvitation?
    requires Perform(Execute(steps[..i]), steps[i]).Commit?
    ensures var (r, db, after) := (steps[i].request, Now(Execute(steps[..i])), Next(Execute(steps[..i]), steps[i]));
            && r.invitation in db.invitations
            && var row := db.invitations[r.invitation];
               && row.status == "pending" && steps[i].now < row.expiresAt
               && r.invitation in after.invitations && after.invitations[r.invitation].status == "accepted"
               && after.invitations[r.invitation].acceptedBy == r.user
               && r.membershipId in after.memberships
               && after.memberships[r.membershipId].tenant == row.tenant
               && after.memberships[r.membershipId].user == r.user
               && after.memberships[r.membershipId].status == "active"
               && (r.invitation in Execute(steps)[j].invitations ==>
                     Execute(steps)[j].invitations[r.invitation].expiresAt == row.expiresAt)
  {
    hide Perform, Execute, Coherent;
    var (before, x) := (steps[..i], steps[i].request.invitation);
    RunCoherent(before);
    StepWrites(Execute(before), steps[i]);
    RunCoherent(steps);
    Prefix(steps, i);
    if x in Execute(steps)[j].invitations {
      DeadlineFixed(Execute(steps), i, j, x);
    }
  }

  /** At any moment of any run, for a well-formed request on an existing quota: a consume is accepted if and only if
      the amount still fits under the limit, and then exactly the amount is taken. */
  lemma {:induction false} ConsumeAcceptedIff(h: History, step: Step)
    requires step.request.ReqConsumeQuota?
    requires step.request.tenant != "" && step.request.key != "" && step.request.amount > 0
    requires (step.request.tenant, step.request.key) in Now(h).quotas
    ensures var k := (step.request.tenant, step.request.key);
            var row := Now(h).quotas[k];
            && (Perform(h, step).Commit? <==> row.used + step.request.amount <= row.limit)
            && (row.used + step.request.amount <= row.limit ==>
                  k in Next(h, step).quotas && Next(h, step).quotas[k].used == row.used + step.request.amount)
            && (row.used + step.request.amount > row.limit ==> Next(h, step) == Now(h))
  {
    hide At, Now, CreateTenant, UpdateTenant, CreateUnit, UpdateUnit, AddMembership, UpdateMembership,
        CreateInvitation, AcceptInvitation, RevokeInvitation, CreateGroup, UpdateGroup, AddGroupMember,
        RemoveGroupMember, SetQuota, ConsumeQuota;
    ConsumeQuotaKeeps(Now(h), step.request.tenant, step.request.key, step.request.amount, step.now, step.actor);
  }

  lemma {:induction false} Prefix(steps: seq<Step>, i: nat)
    requires i <= |steps|
    ensures Execute(steps)[i] == Now(Execute(steps[..i]))
    decreases |steps|
  {
    hide Next;
    if i == |steps| {
      assert steps[..i] == steps;
    } else {
      Prefix(steps[..|steps| - 1], i);
      assert steps[..|steps| - 1][..i] == steps[..i];
    }
  }

  lemma DeadlineFixed(h: History, i: nat, j: nat, x: string)
    requires Coherent(h) && i < |h| && j < |h| && x in h[i].invitations && x in h[j].invitations
    ensures h[i].invitations[x].expiresAt == h[j].invitations[x].expiresAt
  {
    if i <= j {
      assert Evolves(h[i], h[j]);
    } else {
      assert Evolves(h[j], h[i]);
    }
  }

  // ----- What every commit has checked -----

  /** Whatever the age of its reads, a request that commits has found in them what its guards ask for, and has found the row
      it updates at the version it was given or had read. */
  lemma {:induction false} StepChecks(h: History, step: Step)
    requires Perform(h, step).Commit?
    ensures var (db, now) := (Now(h), step.now);
            var (one, two, three) := (At(h, step.first), At(h, step.second), At(h, step.third));
            match step.request
            case ReqCreateTenant(id, _, _, _, member) => id !in db.tenants && member !in db.memberships
            case ReqUpdateTenant(id, _, _, version) => id in one.tenants && id in db.tenants && db.tenants[id].version == version
            case ReqCreateUnit(id, tenant, parent, _, _) => tenant in one.tenants && Placed(two.units, tenant, parent)
            case ReqUpdateUnit(id, parent, _, _, version) =>
              && id in one.units && id in db.units && one.units[id].version == version == db.units[id].version
              && Placed(two.units, one.units[id].tenant, parent)
              && (parent != "" ==> !(one.units[id].path <= two.units[parent].path) && two.units[parent].id != one.units[id].id)
            case ReqAddMembership(_, tenant, user, unit) => Placed(one.units, tenant, unit) && tenant in db.tenants
            case ReqUpdateMembership(id, _, unit, version) =>
              && id in one.memberships && id in db.memberships && db.memberships[id].version == version
              && Placed(two.units, one.memberships[id].tenant, unit)
            case ReqCreateInvitation(id, tenant, _, _) => tenant in one.tenants && id !in db.invitations
            case ReqAcceptInvitation(x, _, _) =>
              x in one.invitations && one.invitations[x].status == "pending" && now < one.invitations[x].expiresAt
            case ReqRevokeInvitation(x, version) =>
              && x in one.invitations && one.invitations[x].status == "pending"
              && x in db.invitations && db.invitations[x].version == version
            case ReqCreateGroup(id, tenant, _, _) => id !in db.groups && tenant in db.tenants
            case ReqUpdateGroup(id, _, _, version) => id in one.groups && id in db.groups && db.groups[id].version == version
            case ReqAddGroupMember(_, group, membership) =>
              var k := (group, membership);
              && group in one.groups && membership in two.memberships
              && one.groups[group].tenant == two.memberships[membership].tenant
              && one.groups[group].status == "active" && two.memberships[membership].status == "active"
              && (k in three.groupMembers <==> k in db.groupMembers)
              && (k in three.groupMembers ==>
                    && three.groupMembers[k].status != "active" && three.groupMembers[k].id == db.groupMembers[k].id
                    && three.groupMembers[k].version == db.groupMembers[k].version)
            case ReqRemoveGroupMember(group, membership, version) =>
              var k := (group, membership);
              && k in one.groupMembers && group in two.groups
              && k in db.groupMembers && db.groupMembers[k].id == one.groupMembers[k].id && db.groupMembers[k].version == version
            case ReqSetQuota(tenant, key, _, version) =>
              var k := (tenant, key);
              && (k in one.quotas <==> k in db.quotas)
              && (k in db.quotas ==> one.quotas[k].version == version == db.quotas[k].version)
              && (k !in db.quotas ==> version == 0 && tenant in db.tenants)
            case ReqConsumeQuota(tenant, key, amount) =>
              var k := (tenant, key);
              amount > 0 && k in db.quotas && db.quotas[k].used + amount <= db.quotas[k].limit
  {
    hide At, Now, MoveRows, UniquePaths, NewPath, CodeTaken, PathTaken, IsMember, TenantCodeTaken, GroupCodeTaken;
  }
}
