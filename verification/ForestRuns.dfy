/** The forest invariant over whole runs, including runs in which a create or a move
    writes on the strength of an old read. */
module ForestRuns {
  import opened Text
  import opened Tables
  import opened Forest
  import opened Transactions
  import opened Effects
  import opened Moves
  import opened Runs

  predicate WritesUnits(request: Request) {
    request.ReqCreateUnit? || request.ReqUpdateUnit?
  }

  /** The step commits a unit under a parent whose path has changed since the step read it. */
  predicate Overtaken(h: History, step: Step) {
    && WritesUnits(step.request)
    && Perform(h, step).Commit?
    && !ParentUnmoved(Now(h).units, step.request.parent, Get(At(h, step.second).units, step.request.parent))
  }

  // ----- One step -----

  lemma EarlierUnit(h: History, moment: nat, x: string)
    requires Coherent(h)
    ensures ReadOf(Now(h).units, x, Get(At(h, moment).units, x))
    ensures x in At(h, moment).units && x in Now(h).units
            && At(h, moment).units[x].version == Now(h).units[x].version
            ==> At(h, moment).units[x] == Now(h).units[x]
  {
    var i := if moment < |h| then moment else |h| - 1;
    assert Keyed(h[i]) && Evolves(h[i], h[|h| - 1]);
  }

  lemma CreateStep(h: History, step: Step)
    requires Coherent(h) && Linked(Now(h).units) && step.request.ReqCreateUnit?
    ensures Linked(Next(h, step).units) <==> !Overtaken(h, step)
  {
    hide Linked, ParentUnmoved, ReadOf, CreateUnit;
    var r := step.request;
    EarlierUnit(h, step.second, r.parent);
    if Perform(h, step).Commit? {
      CreateKeepsForestIff(Get(At(h, step.first).tenants, r.tenant), Get(At(h, step.second).units, r.parent), Now(h),
                           r.unitId, r.tenant, r.parent, r.code, r.name, step.now, step.actor);
    }
  }

  lemma MoveStep(h: History, step: Step)
    requires Coherent(h) && Linked(Now(h).units) && step.request.ReqUpdateUnit?
    ensures Linked(Next(h, step).units) <==> !Overtaken(h, step)
  {
    hide Linked, ParentUnmoved, ReadOf;
    var r := step.request;
    EarlierUnit(h, step.first, r.unit);
    EarlierUnit(h, step.second, r.parent);
    if Perform(h, step).Commit? {
      MoveCommitFacts(Get(At(h, step.first).units, r.unit), Get(At(h, step.second).units, r.parent), Now(h),
                     r.unit, r.parent, r.name, r.status, r.version, step.now, step.actor);
      hide UpdateUnit;
      MoveKeepsForestIff(Get(At(h, step.first).units, r.unit), Get(At(h, step.second).units, r.parent), Now(h),
                         r.unit, r.parent, r.name, r.status, r.version, step.now, step.actor);
    }
  }

  /** A step outside the unit family leaves the unit table alone. */
  lemma OtherStep(h: History, step: Step)
    requires !WritesUnits(step.request)
    ensures Next(h, step).units == Now(h).units
  {
    hide Perform, Keyed, Evolves, Announces;
    StepEffect(h, step);
    assert FamilyOf(step.request) != Units;
  }

  /** From a forest, a step leads to a forest if and only if it was not overtaken. */
  lemma {:induction false} StepForestIff(h: History, step: Step)
    requires Coherent(h) && Linked(Now(h).units)
    ensures Linked(Next(h, step).units) <==> !Overtaken(h, step)
  {
    hide Perform, Next, Linked, ParentUnmoved, Coherent;
    if step.request.ReqCreateUnit? {
      CreateStep(h, step);
    } else if step.request.ReqUpdateUnit? {
      MoveStep(h, step);
    } else {
      OtherStep(h, step);
    }
  }

  // ----- Whole runs -----

  lemma {:induction false} ExecutePrefix(steps: seq<Step>, i: nat)
    requires i <= |steps|
    ensures Execute(steps)[..i + 1] == Execute(steps[..i])
  {
    hide Next;
    if i == |steps| {
      assert steps[..i] == steps && Execute(steps)[..i + 1] == Execute(steps);
    } else {
      var before := steps[..|steps| - 1];
      ExecutePrefix(before, i);
      assert before[..i] == steps[..i];
    }
  }

  ghost predicate AllForests(h: History) {
    forall i | 0 <= i < |h| :: IsForest(h[i].units)
  }

  predicate NoneOvertaken(steps: seq<Step>) {
    forall i | 0 <= i < |steps| :: !Overtaken(Execute(steps[..i]), steps[i])
  }

  lemma AllForestsSnoc(h: History, db: Database)
    ensures AllForests(h + [db]) <==> AllForests(h) && IsForest(db.units)
  {
    hide IsForest;
    var h' := h + [db];
    assert forall i | 0 <= i < |h| :: h'[i] == h[i];
    assert h'[|h|] == db;
  }

  lemma NoneOvertakenSnoc(before: seq<Step>, last: Step)
    ensures NoneOvertaken(before + [last]) <==> NoneOvertaken(before) && !Overtaken(Execute(before), last)
  {
    hide Overtaken;
    var steps := before + [last];
    assert forall i | 0 <= i < |before| :: steps[..i] == before[..i] && steps[i] == before[i];
    assert steps[..|before|] == before && steps[|before|] == last;
  }

  /** The forest invariant over every run, with its exact condition: all states of a run are forests
      if and only if no step of the run is overtaken. */
  lemma {:induction false} RunForestIff(steps: seq<Step>)
    ensures AllForests(Execute(steps)) <==> NoneOvertaken(steps)
  {
    hide Next, Overtaken, IsForest, Linked, Coherent, NoneOvertaken;
    if steps == [] {
      EmptyIsForest();
      assert NoneOvertaken(steps) by { NothingOvertaken(); }
    } else {
      var before := steps[..|steps| - 1];
      var last := steps[|steps| - 1];
      var g := Execute(before);
      RunForestIff(before);
      RunCoherent(before);
      assert steps == before + [last];
      AllForestsSnoc(g, Next(g, last));
      NoneOvertakenSnoc(before, last);
      LinkedIsForest(Now(g).units);
      LinkedIsForest(Next(g, last).units);
      if AllForests(g) {
        assert IsForest(g[|g| - 1].units);
        StepForestIff(g, last);
      }
    }
  }

  lemma NothingOvertaken()
    ensures NoneOvertaken([])
  {
  }

  lemma EmptyIsForest()
    ensures IsForest(EMPTY.units)
  {
    LinkedIsForest(EMPTY.units);
  }

  // ----- What the lock buys -----

  lemma CreateKeepsRows(h: History, step: Step, x: string)
    requires step.request.ReqCreateUnit? && x in Now(h).units
    ensures x in Next(h, step).units && Next(h, step).units[x] == Now(h).units[x]
  {
    hide CodeTaken, PathTaken, Get, At;
  }

  /** The step commits a move inside the tenant of unit `x`. */
  predicate MovesAround(h: History, step: Step, x: string) {
    && step.request.ReqUpdateUnit?
    && Perform(h, step).Commit?
    && x in Now(h).units && step.request.unit in Now(h).units
    && Now(h).units[step.request.unit].tenant == Now(h).units[x].tenant
  }

  lemma MoveKeepsOtherTenants(units: Units, id: string, tenant: string, parent: string, name: string, status: string,
                              oldPath: string, newPath: string, now: int, actor: string, x: string)
    requires id in units && x in units && x != id && units[x].tenant != tenant
    ensures var after := MoveRows(units, id, tenant, parent, name, status, oldPath, newPath, now, actor);
            x in after && after[x] == units[x]
  {
    hide Like, From;
  }

  lemma EarlierTenant(h: History, moment: nat, x: string)
    requires Coherent(h)
    ensures var seen := Get(At(h, moment).units, x);
            seen.Some? ==> x in Now(h).units && seen.value.tenant == Now(h).units[x].tenant
  {
    var i := if moment < |h| then moment else |h| - 1;
    assert Evolves(h[i], h[|h| - 1]);
  }

  /** Only a committed move inside its own tenant changes the path of an existing unit. */
  lemma {:induction false} OnlyMovesChangePaths(h: History, step: Step, x: string)
    requires Coherent(h) && x in Now(h).units && !MovesAround(h, step, x)
    ensures x in Next(h, step).units && Next(h, step).units[x].path == Now(h).units[x].path
  {
    hide CreateUnit, UpdateUnit, At, Get, MoveRows, Coherent;
    var r := step.request;
    if r.ReqCreateUnit? {
      CreateKeepsRows(h, step, x);
    } else if !r.ReqUpdateUnit? {
      OtherStep(h, step);
    } else if Perform(h, step).Commit? {
      var (seen, seenParent) := (Get(At(h, step.first).units, r.unit), Get(At(h, step.second).units, r.parent));
      MoveCommitFacts(seen, seenParent, Now(h), r.unit, r.parent, r.name, r.status, r.version, step.now, step.actor);
      EarlierTenant(h, step.first, r.unit);
      MoveKeepsOtherTenants(Now(h).units, r.unit, seen.value.tenant, r.parent, r.name, r.status, seen.value.path,
                            NewPath(seenParent, r.parent, r.unit), step.now, step.actor, x);
    }
  }

  /** No move commits in the tenant of unit `x` at a moment in [from, to). */
  predicate NoMoveBetween(steps: seq<Step>, x: string, from: nat, to: nat) {
    forall i | from <= i < to && i < |steps| :: !MovesAround(Execute(steps[..i]), steps[i], x)
  }

  lemma NoMovePrefix(steps: seq<Step>, x: string, from: nat, to: nat)
    requires to <= |steps| && NoMoveBetween(steps, x, from, to)
    ensures NoMoveBetween(steps[..to], x, from, to)
  {
    hide MovesAround;
    forall i | from <= i < to ensures !MovesAround(Execute(steps[..to][..i]), steps[..to][i], x) {
      assert steps[..to][..i] == steps[..i] && steps[..to][i] == steps[i];
    }
  }

  lemma {:induction false} PathStableBetween(steps: seq<Step>, from: nat, x: string)
    requires from <= |steps| && NoMoveBetween(steps, x, from, |steps|)
    requires x in Execute(steps)[from].units
    ensures x in Now(Execute(steps)).units && Now(Execute(steps)).units[x].path == Execute(steps)[from].units[x].path
  {
    hide Next, MovesAround, Coherent;
    if from < |steps| {
      var before := steps[..|steps| - 1];
      ExecutePrefix(steps, |before|);
      assert Execute(steps)[from] == Execute(before)[from];
      assert NoMoveBetween(steps, x, from, |before|);
      NoMovePrefix(steps, x, from, |before|);
      PathStableBetween(before, from, x);
      RunCoherent(before);
      OnlyMovesChangePaths(Execute(before), steps[|before|], x);
    }
  }

  /** The unit write at position `i` read its parent after the last move that committed in the parent's tenant. */
  predicate Quiet(steps: seq<Step>, i: nat)
    requires i < |steps| && WritesUnits(steps[i].request)
  {
    NoMoveBetween(steps, steps[i].request.parent, steps[i].second, i)
  }

  /** If no move commits in the tenant between a unit write's read of its parent and its own commit, the run
      keeps the forest. */
  lemma {:induction false} QuietRunKeepsForest(steps: seq<Step>)
    requires forall i | 0 <= i < |steps| && WritesUnits(steps[i].request) :: Quiet(steps, i)
    ensures AllForests(Execute(steps))
  {
    hide Overtaken, AllForests, Execute, Quiet;
    forall i | 0 <= i < |steps| ensures !Overtaken(Execute(steps[..i]), steps[i]) {
      if WritesUnits(steps[i].request) {
        QuietStep(steps, i);
      } else {
        OtherNotOvertaken(Execute(steps[..i]), steps[i]);
      }
    }
    RunForestIff(steps);
  }

  /** The per-tenant lock makes every move quiet. Then only a create can be overtaken, and a run keeps the
      forest if and only if none is. */
  lemma {:induction false} LockedRunForestIff(steps: seq<Step>)
    requires forall i | 0 <= i < |steps| && steps[i].request.ReqUpdateUnit? :: Quiet(steps, i)
    ensures AllForests(Execute(steps))
       <==> forall i | 0 <= i < |steps| && steps[i].request.ReqCreateUnit? :: !Overtaken(Execute(steps[..i]), steps[i])
  {
    hide Overtaken, AllForests, Execute, Quiet;
    forall i | 0 <= i < |steps| && !steps[i].request.ReqCreateUnit? ensures !Overtaken(Execute(steps[..i]), steps[i]) {
      if steps[i].request.ReqUpdateUnit? {
        QuietStep(steps, i);
      } else {
        OtherNotOvertaken(Execute(steps[..i]), steps[i]);
      }
    }
    RunForestIff(steps);
  }

  lemma OtherNotOvertaken(h: History, step: Step)
    requires !WritesUnits(step.request)
    ensures !Overtaken(h, step)
  {
  }

  /** A committed unit write read the parent it names. */
  lemma CommitReadParent(h: History, step: Step)
    requires WritesUnits(step.request) && Perform(h, step).Commit? && step.request.parent != ""
    ensures step.request.parent in At(h, step.second).units
  {
    hide UniquePaths, MoveRows, CodeTaken, PathTaken, At;
    var r := step.request;
    if r.ReqUpdateUnit? {
      MoveCommitFacts(Get(At(h, step.first).units, r.unit), Get(At(h, step.second).units, r.parent), Now(h),
                     r.unit, r.parent, r.name, r.status, r.version, step.now, step.actor);
    }
  }

  lemma QuietStep(steps: seq<Step>, i: nat)
    requires i < |steps| && WritesUnits(steps[i].request) && Quiet(steps, i)
    ensures !Overtaken(Execute(steps[..i]), steps[i])
  {
    hide Perform, Execute, MovesAround;
    var before := steps[..i];
    var step := steps[i];
    var h := Execute(before);
    var parent := step.request.parent;
    if parent != "" && Perform(h, step).Commit? {
      CommitReadParent(h, step);
      if step.second <= |before| {
        NoMovePrefix(steps, parent, step.second, i);
        PathStableBetween(before, step.second, parent);
      }
    }
  }
}
