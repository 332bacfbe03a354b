/** Invitations over whole runs: each is settled at most once, and acceptance comes with a membership -
    exactly in those runs where every revoke carries the version it read. */
module InvitationRuns {
  import opened Text
  import opened Tables
  import opened Transactions
  import opened Effects
  import opened Runs

  // ----- Single use -----

  /** Pending rows are at version 1; settled rows are at version 2, and an accepted one has a member. */
  predicate UsedOnce(db: Database, x: string)
    requires x in db.invitations
  {
    var row := db.invitations[x];
    && row.version in {1, 2}
    && (row.status == "pending" <==> row.version == 1)
    && (row.version == 1 ==> row.acceptedBy == "")
    && (row.version == 2 ==> row.status in {"accepted", "revoked"})
    && (row.status == "accepted" ==> IsMember(db.memberships, row.tenant, row.acceptedBy))
  }

  /** The invitation events that settled `x`: acceptances and revocations. */
  function Settlements(outbox: seq<Event>, x: string): nat {
    if outbox == [] then 0
    else
      var e := outbox[|outbox| - 1];
      Settlements(outbox[..|outbox| - 1], x)
      + if e.InvitationChanged? && e.invitation.id == x && e.change != "created" then 1 else 0
  }

  predicate Tallied(db: Database, x: string) {
    Settlements(db.outbox, x) == if x in db.invitations then db.invitations[x].version - 1 else 0
  }

  /** Every invitation is used at most once, and the log agrees. */
  ghost predicate SingleUse(db: Database) {
    && Keyed(db)
    && (forall x {:trigger UsedOnce(db, x)} | x in db.invitations :: UsedOnce(db, x))
    && (forall x :: Tallied(db, x))
  }

  /** A revoke that commits although its version is not the one it read. */
  predicate MismatchedRevoke(h: History, step: Step) {
    && step.request.ReqRevokeInvitation?
    && Perform(h, step).Commit?
    && var seen := Get(At(h, step.first).invitations, step.request.invitation);
       seen.Some? && seen.value.version != step.request.version
  }

  // ----- The tally -----

  lemma SettlementsSnoc(outbox: seq<Event>, e: Event, x: string)
    ensures Settlements(outbox + [e], x)
         == Settlements(outbox, x) + if e.InvitationChanged? && e.invitation.id == x && e.change != "created" then 1 else 0
  {
    assert (outbox + [e])[..|outbox|] == outbox;
  }

  lemma MembersPersist(a: map<string, Membership>, b: map<string, Membership>, tenant: string, user: string)
    requires MembershipsEvolve(a, b) && IsMember(a, tenant, user)
    ensures IsMember(b, tenant, user)
  {
    var x :| x in a && a[x].tenant == tenant && a[x].user == user;
    assert x in b;
  }

  /** Rows that a step leaves alone stay good, as members are never removed. */
  lemma UntouchedRow(a: Database, b: Database, x: string)
    requires x in a.invitations && UsedOnce(a, x) && MembershipsEvolve(a.memberships, b.memberships)
    requires x in b.invitations && b.invitations[x] == a.invitations[x]
    ensures UsedOnce(b, x)
  {
    hide IsMember;
    var row := a.invitations[x];
    if row.status == "accepted" {
      MembersPersist(a.memberships, b.memberships, row.tenant, row.acceptedBy);
    }
  }

  /** One row is written and one event about it appended; all other rows and tallies stand. */
  lemma WriteKeepsSingleUse(a: Database, b: Database, x: string, e: Event)
    requires SingleUse(a) && Keyed(b) && MembershipsEvolve(a.memberships, b.memberships)
    requires x in b.invitations && b.invitations == a.invitations[x := b.invitations[x]]
    requires e.InvitationChanged? && e.invitation.id == x && b.outbox == a.outbox + [e]
    requires UsedOnce(b, x)
    requires if e.change == "created" then x !in a.invitations && b.invitations[x].version == 1
             else x in a.invitations && b.invitations[x].version == a.invitations[x].version + 1
    ensures SingleUse(b)
  {
    hide UsedOnce, MembershipsEvolve, Settlements;
    forall y | y in b.invitations ensures UsedOnce(b, y) {
      if y != x {
        assert UsedOnce(a, y);
        UntouchedRow(a, b, y);
      }
    }
    forall y ensures Tallied(b, y) {
      assert Tallied(a, y);
      SettlementsSnoc(a.outbox, e, y);
    }
  }

  // ----- One transaction -----

  lemma CreateKeepsSingleUse(seenTenant: Option<Tenant>, db: Database, id: string, tenant: string, email: string,
                             expiresIn: int, now: int, actor: string)
    requires SingleUse(db)
    ensures SingleUse(CreateInvitation(seenTenant, db, id, tenant, email, expiresIn, now, actor).After(db))
  {
    hide Settlements, IsMember, SingleUse;
    var outcome := CreateInvitation(seenTenant, db, id, tenant, email, expiresIn, now, actor);
    if outcome.Commit? {
      CreateInvitationEffect(seenTenant, db, id, tenant, email, expiresIn, now, actor);
      assert Keyed(db) by { SingleUseKeyed(db); }
      WriteKeepsSingleUse(db, outcome.db, id, outcome.db.outbox[|db.outbox|]);
    }
  }

  lemma SingleUseKeyed(db: Database)
    requires SingleUse(db)
    ensures Keyed(db)
  {
  }

  lemma SingleUseRow(db: Database, x: string)
    requires SingleUse(db) && x in db.invitations
    ensures UsedOnce(db, x)
  {
  }

  /** An invitation read earlier is the row itself, unless the row has moved on to another version. */
  predicate CurrentIfSameVersion(seen: Option<Invitation>, db: Database) {
    seen.Some? ==>
      var x := seen.value.id;
      x in db.invitations && (db.invitations[x].version == seen.value.version ==> db.invitations[x] == seen.value)
  }

  lemma AcceptKeepsSingleUse(seen: Option<Invitation>, db: Database, user: string, member: string, now: int, actor: string)
    requires SingleUse(db)
    requires CurrentIfSameVersion(seen, db)
    ensures SingleUse(AcceptInvitation(seen, db, user, member, now, actor).After(db))
  {
    hide Settlements, SingleUse, Evolves, OneEvent;
    var outcome := AcceptInvitation(seen, db, user, member, now, actor);
    if outcome.Commit? {
      AcceptInvitationEffect(seen, db, user, member, now, actor);
      SingleUseKeyed(db);
      var x := seen.value.id;
      SingleUseRow(db, x);
      assert outcome.db.memberships[member].user == user;
      assert MembershipsEvolve(db.memberships, outcome.db.memberships);
      WriteKeepsSingleUse(db, outcome.db, x, outcome.db.outbox[|db.outbox|]);
    }
  }

  /** A revoke keeps single use if and only if its version is the one it read. */
  lemma RevokeKeepsSingleUseIff(seen: Option<Invitation>, db: Database, x: string, version: int, now: int, actor: string)
    requires SingleUse(db) && RevokeInvitation(seen, db, x, version, now, actor).Commit?
    requires seen.Some? && seen.value.id == x && seen.value.version == 1 && seen.value.acceptedBy == ""
    ensures SingleUse(RevokeInvitation(seen, db, x, version, now, actor).db) <==> version == seen.value.version
  {
    hide Settlements, SingleUse, IsMember, Evolves, OneEvent;
    var outcome := RevokeInvitation(seen, db, x, version, now, actor);
    RevokeInvitationEffect(seen, db, x, version, now, actor);
    SingleUseKeyed(db);
    SingleUseRow(db, x);
    if version == 1 {
      assert MembershipsEvolve(db.memberships, outcome.db.memberships);
      WriteKeepsSingleUse(db, outcome.db, x, outcome.db.outbox[|db.outbox|]);
    } else if SingleUse(outcome.db) {
      SingleUseRow(outcome.db, x);
    }
  }

  // ----- One step -----

  lemma EarlierInvitation(h: History, moment: nat, x: string)
    requires Coherent(h)
    ensures CurrentIfSameVersion(Get(At(h, moment).invitations, x), Now(h))
    ensures x in At(h, moment).invitations ==> At(h, moment).invitations[x].id == x
  {
    var i := if moment < |h| then moment else |h| - 1;
    assert Keyed(h[i]) && Evolves(h[i], h[|h| - 1]);
  }

  ghost predicate AllSingleUse(h: History) {
    forall i {:trigger h[i]} | 0 <= i < |h| :: SingleUse(h[i])
  }

  lemma EarlierPending(h: History, moment: nat, x: string)
    requires AllSingleUse(h) && x in At(h, moment).invitations && At(h, moment).invitations[x].status == "pending"
    ensures At(h, moment).invitations[x].version == 1 && At(h, moment).invitations[x].acceptedBy == ""
  {
    hide SingleUse, IsMember;
    var i := if moment < |h| then moment else |h| - 1;
    assert SingleUse(h[i]);
    SingleUseRow(h[i], x);
  }

  lemma Outcomes(h: History, step: Step)
    requires FamilyOf(step.request) == Invitations
    ensures match step.request
            case ReqCreateInvitation(id, tenant, email, expiresIn) =>
              Perform(h, step) == CreateInvitation(Get(At(h, step.first).tenants, tenant), Now(h), id, tenant, email,
                                                   expiresIn, step.now, step.actor)
            case ReqAcceptInvitation(id, user, member) =>
              Perform(h, step) == AcceptInvitation(Get(At(h, step.first).invitations, id), Now(h), user, member,
                                                   step.now, step.actor)
            case ReqRevokeInvitation(id, version) =>
              Perform(h, step) == RevokeInvitation(Get(At(h, step.first).invitations, id), Now(h), id, version,
                                                   step.now, step.actor)
  {
    hide At, Now, Get, CreateTenant, UpdateTenant, CreateUnit, UpdateUnit, AddMembership, UpdateMembership, CreateInvitation,
      AcceptInvitation, RevokeInvitation, CreateGroup, UpdateGroup, AddGroupMember, RemoveGroupMember, SetQuota, ConsumeQuota;
  }

  lemma RevokeReadPending(seen: Option<Invitation>, db: Database, x: string, version: int, now: int, actor: string)
    requires RevokeInvitation(seen, db, x, version, now, actor).Commit?
    ensures seen.Some? && seen.value.status == "pending"
  {
  }

  lemma RevokeStep(h: History, step: Step)
    requires Coherent(h) && AllSingleUse(h) && step.request.ReqRevokeInvitation?
    ensures SingleUse(Next(h, step)) <==> !MismatchedRevoke(h, step)
  {
    hide Perform, RevokeInvitation, Coherent, SingleUse;
    var r := step.request;
    var seen := Get(At(h, step.first).invitations, r.invitation);
    Outcomes(h, step);
    assert SingleUse(h[|h| - 1]);
    if Perform(h, step).Commit? {
      RevokeReadPending(seen, Now(h), r.invitation, r.version, step.now, step.actor);
      EarlierInvitation(h, step.first, r.invitation);
      EarlierPending(h, step.first, r.invitation);
      RevokeKeepsSingleUseIff(seen, Now(h), r.invitation, r.version, step.now, step.actor);
    }
  }

  lemma OfferStep(h: History, step: Step)
    requires Coherent(h) && AllSingleUse(h) && (step.request.ReqCreateInvitation? || step.request.ReqAcceptInvitation?)
    ensures SingleUse(Next(h, step))
  {
    hide Perform, CreateInvitation, AcceptInvitation, Coherent, SingleUse, CurrentIfSameVersion;
    var r := step.request;
    Outcomes(h, step);
    assert SingleUse(h[|h| - 1]);
    if r.ReqCreateInvitation? {
      CreateKeepsSingleUse(Get(At(h, step.first).tenants, r.tenant), Now(h), r.invitationId, r.tenant, r.email, r.expiresIn,
                           step.now, step.actor);
    } else {
      EarlierInvitation(h, step.first, r.invitation);
      AcceptKeepsSingleUse(Get(At(h, step.first).invitations, r.invitation), Now(h), r.user, r.membershipId,
                           step.now, step.actor);
    }
  }

  lemma OtherStep(h: History, step: Step)
    requires SingleUse(Now(h)) && FamilyOf(step.request) != Invitations
    ensures SingleUse(Next(h, step))
  {
    hide Perform, Keyed, UsedOnce, Settlements, MembershipsEvolve;
    StepEffect(h, step);
    var (a, b) := (Now(h), Next(h, step));
    if Perform(h, step).Commit? {
      var e := b.outbox[|a.outbox|];
      assert b.outbox == a.outbox + [e] && !e.InvitationChanged? && b.invitations == a.invitations;
      forall y | y in b.invitations ensures UsedOnce(b, y) {
        assert UsedOnce(a, y);
        UntouchedRow(a, b, y);
      }
      forall y ensures Tallied(b, y) {
        assert Tallied(a, y);
        SettlementsSnoc(a.outbox, e, y);
      }
    }
  }

  lemma StepSingleUseIff(h: History, step: Step)
    requires Coherent(h) && AllSingleUse(h)
    ensures SingleUse(Next(h, step)) <==> !MismatchedRevoke(h, step)
  {
    hide Next, Perform, Coherent, SingleUse;
    if step.request.ReqRevokeInvitation? {
      RevokeStep(h, step);
    } else if FamilyOf(step.request) == Invitations {
      OfferStep(h, step);
    } else {
      assert SingleUse(h[|h| - 1]);
      OtherStep(h, step);
    }
  }

  // ----- Whole runs -----

  predicate NoMismatchedRevoke(steps: seq<Step>) {
    forall i | 0 <= i < |steps| :: !MismatchedRevoke(Execute(steps[..i]), steps[i])
  }

  lemma NoMismatchSnoc(before: seq<Step>, last: Step)
    ensures NoMismatchedRevoke(before + [last]) <==> NoMismatchedRevoke(before) && !MismatchedRevoke(Execute(before), last)
  {
    hide MismatchedRevoke;
    var steps := before + [last];
    assert forall i | 0 <= i < |before| :: steps[..i] == before[..i] && steps[i] == before[i];
    assert steps[..|before|] == before && steps[|before|] == last;
  }

  lemma AllSingleUseSnoc(h: History, db: Database)
    ensures AllSingleUse(h + [db]) <==> AllSingleUse(h) && SingleUse(db)
  {
    hide SingleUse;
    var h' := h + [db];
    assert forall i | 0 <= i < |h| :: h'[i] == h[i];
    assert h'[|h|] == db;
  }

  lemma EmptySingleUse()
    ensures SingleUse(EMPTY) && NoMismatchedRevoke([])
  {
    forall x ensures Tallied(EMPTY, x) {
      assert Settlements(EMPTY.outbox, x) == 0;
    }
  }

  /** Single use over every run, with its exact condition: in all states of a run every invitation is
      settled at most once and every accepted one has its member, if and only if every revoke that
      commits carries the version it read. */
  lemma {:induction false} RunSingleUseIff(steps: seq<Step>)
    ensures AllSingleUse(Execute(steps)) <==> NoMismatchedRevoke(steps)
  {
    hide Next, MismatchedRevoke, SingleUse, Coherent, NoMismatchedRevoke;
    if steps == [] {
      EmptySingleUse();
    } else {
      var before := steps[..|steps| - 1];
      var last := steps[|steps| - 1];
      var g := Execute(before);
      RunSingleUseIff(before);
      RunCoherent(before);
      assert steps == before + [last];
      AllSingleUseSnoc(g, Next(g, last));
      NoMismatchSnoc(before, last);
      if AllSingleUse(g) {
        StepSingleUseIff(g, last);
      }
    }
  }

  /** In such a run a settled invitation never changes again, at most one acceptance or revocation of it is
      ever announced, and an acceptance stays backed by a membership of the accepting user. */
  lemma {:induction false} SettledForever(steps: seq<Step>, i: nat, j: nat, x: string)
    requires NoMismatchedRevoke(steps) && i <= j <= |steps|
    requires x in Execute(steps)[i].invitations
    ensures var (a, b) := (Execute(steps)[i], Execute(steps)[j]);
            && x in b.invitations
            && Settlements(b.outbox, x) <= 1
            && (a.invitations[x].status != "pending" ==> b.invitations[x] == a.invitations[x])
            && (a.invitations[x].status == "accepted" ==>
                  IsMember(b.memberships, a.invitations[x].tenant, a.invitations[x].acceptedBy))
  {
    hide Execute, NoMismatchedRevoke, Settlements, IsMember;
    RunSingleUseIff(steps);
    RunCoherent(steps);
    var h := Execute(steps);
    assert Evolves(h[i], h[j]);
    assert UsedOnce(h[i], x) && UsedOnce(h[j], x) && Tallied(h[j], x);
  }

  // ----- Single use, counted on the requests -----

  /** The step is an acceptance or a revocation of `x` that commits. */
  predicate Settles(h: History, step: Step, x: string) {
    && (step.request.ReqAcceptInvitation? || step.request.ReqRevokeInvitation?)
    && step.request.invitation == x
    && Perform(h, step).Commit?
  }

  function TimesSettled(steps: seq<Step>, x: string): nat {
    if steps == [] then 0
    else
      var before := steps[..|steps| - 1];
      TimesSettled(before, x) + if Settles(Execute(before), steps[|steps| - 1], x) then 1 else 0
  }

  lemma SettlesAnnounces(h: History, step: Step, x: string)
    requires Coherent(h)
    ensures Settlements(Next(h, step).outbox, x)
         == Settlements(Now(h).outbox, x) + if Settles(h, step, x) then 1 else 0
  {
    hide Perform, Settlements, Keyed, Evolves, Coherent;
    StepEffect(h, step);
    var (a, b) := (Now(h), Next(h, step));
    if Perform(h, step).Commit? {
      var e := b.outbox[|a.outbox|];
      assert b.outbox == a.outbox + [e];
      SettlementsSnoc(a.outbox, e, x);
      if FamilyOf(step.request) == Invitations {
        SettlementEvent(h, step);
      }
    }
  }

  /** A commit that appends one event, about invitation `x`. */
  predicate Tells(db: Database, outcome: Outcome, x: string, created: bool) {
    outcome.Commit? ==>
      && |outcome.db.outbox| > |db.outbox|
      && var e := outcome.db.outbox[|db.outbox|];
         e.InvitationChanged? && e.invitation.id == x && (e.change == "created" <==> created)
  }

  lemma CreateTells(seenTenant: Option<Tenant>, db: Database, id: string, tenant: string, email: string, expiresIn: int,
                    now: int, actor: string)
    ensures Tells(db, CreateInvitation(seenTenant, db, id, tenant, email, expiresIn, now, actor), id, true)
  {
  }

  lemma AcceptTells(seen: Option<Invitation>, db: Database, user: string, member: string, now: int, actor: string, x: string)
    requires seen.Some? ==> seen.value.id == x
    ensures Tells(db, AcceptInvitation(seen, db, user, member, now, actor), x, false)
  {
    hide IsMember;
  }

  lemma RevokeTells(seen: Option<Invitation>, db: Database, x: string, version: int, now: int, actor: string)
    requires seen.Some? ==> seen.value.id == x
    ensures Tells(db, RevokeInvitation(seen, db, x, version, now, actor), x, false)
  {
  }

  /** The event of a committed invitation request names the request's invitation and what was done. */
  lemma SettlementEvent(h: History, step: Step)
    requires Coherent(h) && FamilyOf(step.request) == Invitations
    ensures var r := step.request;
            Tells(Now(h), Perform(h, step), if r.ReqCreateInvitation? then r.invitationId else r.invitation,
                  r.ReqCreateInvitation?)
  {
    hide Perform, Coherent, At, Now, Tells, Get, CreateInvitation, AcceptInvitation, RevokeInvitation, CurrentIfSameVersion;
    Outcomes(h, step);
    var db := Now(h);
    match step.request {
      case ReqCreateInvitation(id, tenant, email, expiresIn) =>
        CreateTells(Get(At(h, step.first).tenants, tenant), db, id, tenant, email, expiresIn, step.now, step.actor);
      case ReqAcceptInvitation(id, user, member) =>
        EarlierId(h, step.first, id);
        AcceptTells(Get(At(h, step.first).invitations, id), db, user, member, step.now, step.actor, id);
      case ReqRevokeInvitation(id, version) =>
        EarlierId(h, step.first, id);
        RevokeTells(Get(At(h, step.first).invitations, id), db, id, version, step.now, step.actor);
    }
  }

  lemma EarlierId(h: History, moment: nat, x: string)
    requires Coherent(h)
    ensures var seen := Get(At(h, moment).invitations, x); seen.Some? ==> seen.value.id == x
  {
    EarlierInvitation(h, moment, x);
  }

  lemma {:induction false} SettlementsCounted(steps: seq<Step>, x: string)
    ensures Settlements(Now(Execute(steps)).outbox, x) == TimesSettled(steps, x)
  {
    hide Next, Settles, Coherent;
    if steps != [] {
      var before := steps[..|steps| - 1];
      SettlementsCounted(before, x);
      RunCoherent(before);
      SettlesAnnounces(Execute(before), steps[|steps| - 1], x);
    }
  }

  /** Over a whole run without a mismatched revoke, at most one acceptance or revocation of an invitation ever
      commits, and none before the invitation exists. */
  lemma {:induction false} SettledAtMostOnce(steps: seq<Step>, x: string)
    requires NoMismatchedRevoke(steps)
    ensures TimesSettled(steps, x) <= 1
    ensures var db := Now(Execute(steps));
            TimesSettled(steps, x) == 1 <==> x in db.invitations && db.invitations[x].status != "pending"
  {
    hide Execute, NoMismatchedRevoke, Settlements, IsMember;
    RunSingleUseIff(steps);
    SettlementsCounted(steps, x);
    var h := Execute(steps);
    assert SingleUse(h[|h| - 1]);
    assert Tallied(Now(h), x);
    if x in Now(h).invitations {
      assert UsedOnce(Now(h), x);
    }
  }
}
