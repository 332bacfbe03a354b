/** Two concrete runs. In the first a create overtaken by a move breaks the forest; in the second
    a revoke with a guessed version undoes an acceptance. */
module Counterexamples {
  import opened Text
  import opened Tables
  import opened Forest
  import opened Transactions
  import Effects
  import opened Moves
  import opened Runs
  import opened ForestRuns
  import InvitationRuns

  function Stamp(r: Request, second: nat): Step {
    Step(r, 9, second, 9, 0, "root")
  }

  function Row(id: string, path: string, parent: string, version: int): Unit {
    Unit(id, "t", parent, id, id, path, "active", version, NewAudit(0, "root"))
  }

  /** Two roots, a and b; then a moves under b while a create under a is in flight. */
  function S(k: nat): Step {
    match k
    case 0 => Stamp(ReqCreateTenant("t", "acme", "Acme", "ann", "m"), 9)
    case 1 => Stamp(ReqCreateUnit("a", "t", "", "a", "a"), 9)
    case 2 => Stamp(ReqCreateUnit("b", "t", "", "b", "b"), 9)
    case 3 => Stamp(ReqUpdateUnit("a", "b", "a", "active", 1), 9)
    case _ => Stamp(ReqCreateUnit("c", "t", "a", "c", "c"), 3)
  }

  function Roots(): Units {
    map["a" := Row("a", Path("a"), "", 1), "b" := Row("b", Path("b"), "", 1)]
  }

  function Moved(): Units {
    map["a" := Row("a", "/b/a/", "b", 2), "b" := Row("b", Path("b"), "", 1)]
  }

  predicate Shows(db: Database, units: Units) {
    "t" in db.tenants && db.units == units
  }

  function Path(id: string): string { "/" + id + "/" }

  lemma TenantStep()
    ensures Shows(Next([EMPTY], S(0)), map[])
  {
    var r := S(0).request;
    assert CreateTenant(EMPTY, r.tenantId, r.code, r.name, r.owner, r.ownerMembership, 0, "root").Commit?;
  }

  lemma RootStep(h: History, id: Uuid)
    requires |h| <= 9 && "t" in Now(h).tenants && id !in Now(h).units
    requires forall x | x in Now(h).units :: Now(h).units[x].code != id && Now(h).units[x].path != Path(id)
    ensures Shows(Next(h, Stamp(ReqCreateUnit(id, "t", "", id, id), 9)), Now(h).units[id := Row(id, Path(id), "", 1)])
  {
    hide CreateTenant, UpdateTenant, UpdateUnit, AddMembership, UpdateMembership, CreateInvitation, AcceptInvitation,
      RevokeInvitation, CreateGroup, UpdateGroup, AddGroupMember, RemoveGroupMember, SetQuota, ConsumeQuota;
  }

  lemma RootSteps(h: History)
    requires |h| <= 7 && Shows(Now(h), map[])
    ensures var h1: History := h + [Next(h, S(1))];
            Shows(Next(h1, S(2)), Roots())
  {
    hide Next;
    RootStep(h, "a");
    assert Path("a")[1] != Path("b")[1];
    RootStep(h + [Next(h, S(1))], "b");
  }

  lemma MoveAB(h: History)
    requires |h| <= 9 && Shows(Now(h), Roots())
    ensures Shows(Next(h, S(3)), Moved())
  {
    hide MoveRows, UniquePaths, Effects.Evolves, CreateUnit, CreateTenant, UpdateTenant, UpdateUnit, AddMembership,
        UpdateMembership, CreateInvitation, AcceptInvitation,
      RevokeInvitation, CreateGroup, UpdateGroup, AddGroupMember, RemoveGroupMember, SetQuota, ConsumeQuota;
    var units := Roots();
    assert LinkedAt(units, "a") && LinkedAt(units, "b");
    assert !(Path("a") <= Path("b")) by { assert Path("a")[1] != Path("b")[1]; }
    assert Path("b") + "a" + "/" == "/b/a/";
    MoveCommits(Now(h), "a", "b", "a", "active", 1, 0, "root");
    MovedRow(units, "a", "b", "a", "active", "/b/a/", 0, "root", "b");
    StepEffect(h, S(3));
  }

  lemma StaleCreate(h: History)
    requires |h| == 5 && Shows(Now(h), Moved()) && Shows(h[3], Roots())
    ensures Overtaken(h, S(4))
  {
    hide CreateTenant, UpdateTenant, UpdateUnit, AddMembership, UpdateMembership, CreateInvitation, AcceptInvitation,
      RevokeInvitation, CreateGroup, UpdateGroup, AddGroupMember, RemoveGroupMember, SetQuota, ConsumeQuota;
    var path := Path("a") + "c" + "/";
    assert path[3] == 'c' && path != "/b/a/" && path != Path("b");
    assert path == NewPath(Get(Roots(), "a"), "a", "c");
    assert !PathTaken(Moved(), "t", path) && !CodeTaken(Moved(), "t", "c");
  }

  lemma ExecuteSnoc(before: seq<Step>, step: Step)
    ensures Execute(before + [step]) == Execute(before) + [Next(Execute(before), step)]
  {
    hide Next;
    assert (before + [step])[..|before|] == before;
  }

  /** The forest invariant is false of unrestricted runs: the create commits under a parent whose
      path has meanwhile changed, and stores the old one. */
  lemma OvertakenCreateBreaksForest()
    ensures !AllForests(Execute([S(0), S(1), S(2), S(3), S(4)]))
  {
    hide Next, AllForests, Overtaken, S, Shows, Roots, Moved, Execute;
    FirstSteps();
    var h3 := Execute([S(0), S(1), S(2)]);
    ExecuteSnoc([S(0), S(1), S(2)], S(3));
    MoveAB(h3);
    assert [S(0), S(1), S(2)] + [S(3)] == [S(0), S(1), S(2), S(3)];
    var h4 := Execute([S(0), S(1), S(2), S(3)]);
    assert h4[3] == Now(h3);
    StaleCreate(h4);
    var steps := [S(0), S(1), S(2), S(3), S(4)];
    assert steps[..4] == [S(0), S(1), S(2), S(3)];
    assert !NoneOvertaken(steps);
    RunForestIff(steps);
  }

  lemma FirstSteps()
    ensures Shows(Now(Execute([S(0), S(1), S(2)])), Roots())
  {
    hide Next, S, Shows, Roots;
    assert Execute([]) == [EMPTY];
    TenantStep();
    ExecuteSnoc([], S(0));
    ExecuteSnoc([S(0)], S(1));
    ExecuteSnoc([S(0), S(1)], S(2));
    RootSteps(Execute([S(0)]));
  }

  // ----- A revoke that names the version an acceptance will produce -----

  /** An invitation is created and accepted; a revoke that read it while pending names version 2. */
  function I(k: nat): Step {
    match k
    case 0 => S(0)
    case 1 => Step(ReqCreateInvitation("i", "t", "bob@example.org", 10), 9, 9, 9, 0, "root")
    case 2 => Step(ReqAcceptInvitation("i", "bob", "n"), 9, 9, 9, 0, "bob")
    case _ => Step(ReqRevokeInvitation("i", 2), 2, 9, 9, 0, "root")
  }

  function Offer(): Invitation {
    Invitation("i", "t", "bob@example.org", "pending", 10, "", 1, NewAudit(0, "root"))
  }

  predicate Fresh(db: Database) {
    && "t" in db.tenants && db.invitations == map[] && "n" !in db.memberships
    && !IsMember(db.memberships, "t", "bob")
  }

  predicate Offered(db: Database) {
    && "t" in db.tenants && db.invitations == map["i" := Offer()] && "n" !in db.memberships
    && !IsMember(db.memberships, "t", "bob")
  }

  predicate Taken(db: Database) {
    db.invitations == map["i" := Settled(Offer(), "accepted", "bob", 0, "bob")]
  }

  lemma FreshStep()
    ensures Fresh(Next([EMPTY], I(0)))
  {
    TenantStep();
    var r := S(0).request;
    assert CreateTenant(EMPTY, r.tenantId, r.code, r.name, r.owner, r.ownerMembership, 0, "root").Commit?;
  }

  lemma OfferStep(h: History)
    requires |h| <= 9 && Fresh(Now(h))
    ensures Offered(Next(h, I(1)))
  {
    hide IsMember, CreateUnit, AcceptInvitation, RevokeInvitation, CreateTenant, UpdateTenant, UpdateUnit,
        AddMembership, UpdateMembership, CreateGroup,
      UpdateGroup, AddGroupMember, RemoveGroupMember, SetQuota, ConsumeQuota;
  }

  lemma TakeStep(h: History)
    requires |h| <= 9 && Offered(Now(h))
    ensures Taken(Next(h, I(2)))
  {
    hide IsMember, CreateInvitation, RevokeInvitation, CreateTenant, UpdateTenant, CreateUnit, UpdateUnit,
        AddMembership, UpdateMembership, CreateGroup,
      UpdateGroup, AddGroupMember, RemoveGroupMember, SetQuota, ConsumeQuota;
  }

  lemma RevokeTaken(h: History)
    requires |h| == 4 && Taken(Now(h)) && Offered(h[2])
    ensures InvitationRuns.MismatchedRevoke(h, I(3))
  {
    hide IsMember, CreateInvitation, AcceptInvitation, CreateTenant, UpdateTenant, CreateUnit, UpdateUnit,
        AddMembership, UpdateMembership, CreateGroup,
      UpdateGroup, AddGroupMember, RemoveGroupMember, SetQuota, ConsumeQuota;
  }

  /** Single use is false of unrestricted runs: the accepted invitation ends up revoked. */
  lemma GuessedRevokeUndoesAcceptance()
    ensures !InvitationRuns.AllSingleUse(Execute([I(0), I(1), I(2), I(3)]))
  {
    hide Next, I, Fresh, Offered, Taken, Execute, InvitationRuns.AllSingleUse, InvitationRuns.MismatchedRevoke;
    assert Execute([]) == [EMPTY] by { EmptyRun(); }
    FreshStep();
    assert [] + [I(0)] == [I(0)] && [I(0)] + [I(1)] == [I(0), I(1)] && [I(0), I(1)] + [I(2)] == [I(0), I(1), I(2)];
    ExecuteSnoc([], I(0));
    ExecuteSnoc([I(0)], I(1));
    OfferStep(Execute([I(0)]));
    ExecuteSnoc([I(0), I(1)], I(2));
    TakeStep(Execute([I(0), I(1)]));
    var h := Execute([I(0), I(1), I(2)]);
    RevokeTaken(h);
    var steps := [I(0), I(1), I(2), I(3)];
    assert steps[..3] == [I(0), I(1), I(2)];
    InvitationRuns.RunSingleUseIff(steps);
  }

  lemma EmptyRun()
    ensures Execute([]) == [EMPTY]
  {
  }
}
