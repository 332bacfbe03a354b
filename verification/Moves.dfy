/** Creating and moving units: what the two UPDATE statements of a move do to the forest,
    and exactly when a write based on an earlier read keeps the forest invariant. */
module Moves {
  import opened Text
  import opened Tables
  import opened Forest
  import opened Transactions

  /** Whether a unit may be placed under `parent`, judged on the table itself. */
  predicate Placeable(units: Units, id: string, parent: string) {
    && id in units
    && (parent != "" ==>
          parent in units && units[parent].tenant == units[id].tenant && !(units[id].path <= units[parent].path))
  }

  // ----- The rows a move touches -----

  /** Row by row, a move changes the unit itself and, when its path changes, the rows below it. */
  lemma MovedRow(units: Units, id: string, parent: string, name: string, status: string, newPath: string,
                 now: int, actor: string, y: string)
    requires Linked(units) && id in units && y in units && y != id
    ensures var after := MoveRows(units, id, units[id].tenant, parent, name, status, units[id].path, newPath, now, actor);
            && after.Keys == units.Keys
            && after[id] == Relocated(units[id], parent, name, status, newPath, now, actor)
            && after[y] == if units[id].path <= units[y].path && units[id].path != newPath
                           then Rebased(units[y], units[id].path, newPath, now, actor) else units[y]
  {
    var oldPath := units[id].path;
    PathShape(units, id);
    LikePrefix(units[y].path, oldPath);
    if oldPath <= units[y].path {
      var n := PrefixClimb(units, id, y);
      ClimbShortens(units, y, n, id);
    }
  }

  /** The single prefix rewrite touches exactly the proper descendants by parent links: each
      gets a new path, one more version and the audit stamp; every other row is left alone. */
  lemma MoveTouchesDescendants(units: Units, id: string, parent: string, name: string, status: string,
                               newPath: string, now: int, actor: string)
    requires Linked(units) && id in units
    ensures var after := MoveRows(units, id, units[id].tenant, parent, name, status, units[id].path, newPath, now, actor);
            && after.Keys == units.Keys
            && after[id] == Relocated(units[id], parent, name, status, newPath, now, actor)
            && forall y | y in units && y != id ::
                 after[y] == if ProperDescendant(units, y, id) && units[id].path != newPath
                             then units[y].(path := after[y].path, version := units[y].version + 1,
                                            audit := units[y].audit.Touch(now, actor))
                             else units[y]
  {
    var after := MoveRows(units, id, units[id].tenant, parent, name, status, units[id].path, newPath, now, actor);
    forall y | y in units && y != id
      ensures after[y] == if ProperDescendant(units, y, id) && units[id].path != newPath
                          then units[y].(path := after[y].path, version := units[y].version + 1,
                                         audit := units[y].audit.Touch(now, actor))
                          else units[y]
    {
      MovedRow(units, id, parent, name, status, newPath, now, actor, y);
      PrefixIsAncestor(units, id, y);
    }
  }

  // ----- A move keeps the forest -----

  lemma RebaseSnoc(base: string, oldPath: string, newPath: string, y: string)
    requires oldPath <= base
    ensures newPath + From(base + y + "/", |oldPath|) == newPath + From(base, |oldPath|) + y + "/"
  {
    assert (base + y + "/")[|oldPath|..] == base[|oldPath|..] + y + "/";
  }

  /** The path of a row below the moved unit, or of the unit itself, after the move. */
  lemma MovedPath(units: Units, id: string, parent: string, name: string, status: string, newPath: string,
                  now: int, actor: string, y: string)
    requires Linked(units) && id in units && y in units && units[id].path <= units[y].path
    ensures var after := MoveRows(units, id, units[id].tenant, parent, name, status, units[id].path, newPath, now, actor);
            y in after && after[y].path == newPath + From(units[y].path, |units[id].path|)
  {
    hide MoveRows;
    if y == id {
      MoveTouchesDescendants(units, id, parent, name, status, newPath, now, actor);
    } else {
      MovedRow(units, id, parent, name, status, newPath, now, actor, y);
    }
  }

  lemma MovedRowLinked(units: Units, id: string, parent: string, name: string, status: string, newPath: string,
                       now: int, actor: string, y: string)
    requires Linked(units) && id in units && y in units && y != id
    ensures var after := MoveRows(units, id, units[id].tenant, parent, name, status, units[id].path, newPath, now, actor);
            y in after && LinkedAt(after, y)
  {
    hide MoveRows;
    var oldPath := units[id].path;
    var after := MoveRows(units, id, units[id].tenant, parent, name, status, oldPath, newPath, now, actor);
    MoveTouchesDescendants(units, id, parent, name, status, newPath, now, actor);
    assert LinkedAt(units, y);
    var q := units[y].parent;
    if oldPath <= units[y].path {
      ParentPrefix(units, id, y);
      assert LinkedAt(units, q);
      MovedPath(units, id, parent, name, status, newPath, now, actor, y);
      MovedPath(units, id, parent, name, status, newPath, now, actor, q);
      RebaseSnoc(units[q].path, oldPath, newPath, y);
    } else {
      MovedRow(units, id, parent, name, status, newPath, now, actor, y);
      if q != "" {
        assert q != id;
        MovedRow(units, id, parent, name, status, newPath, now, actor, q);
      }
    }
  }

  /** Subtree move refines recomputation: after the rewrite every stored path is again the one
      its parent links spell out. */
  lemma MoveKeepsForest(units: Units, id: string, parent: string, name: string, status: string, newPath: string,
                        now: int, actor: string)
    requires Linked(units) && Placeable(units, id, parent) && newPath == BasePath(units, parent) + id + "/"
    ensures Linked(MoveRows(units, id, units[id].tenant, parent, name, status, units[id].path, newPath, now, actor))
  {
    hide MoveRows;
    var after := MoveRows(units, id, units[id].tenant, parent, name, status, units[id].path, newPath, now, actor);
    MoveTouchesDescendants(units, id, parent, name, status, newPath, now, actor);
    forall y | y in after ensures LinkedAt(after, y) {
      if y != id {
        MovedRowLinked(units, id, parent, name, status, newPath, now, actor, y);
      } else {
        assert LinkedAt(units, id);
        if parent != "" {
          MovedRow(units, id, parent, name, status, newPath, now, actor, parent);
        }
      }
    }
  }

  // ----- The move guard -----

  /** The table whose parent links say that `id` hangs under `parent`. */
  function Relink(units: Units, id: string, parent: string): Units
    requires id in units
  {
    units[id := units[id].(parent := parent)]
  }

  lemma {:induction false} ClimbSameLinks(before: Units, after: Units, x: string, n: nat, a: string)
    requires before.Keys == after.Keys && forall y | y in before :: before[y].parent == after[y].parent
    ensures Climbs(before, x, n, a) <==> Climbs(after, x, n, a)
    decreases n
  {
    if n > 0 && x in before {
      ClimbSameLinks(before, after, before[x].parent, n - 1, a);
    }
  }

  /** A climb that first meets `id` at its end does not depend on the parent of `id`. */
  lemma {:induction false} ClimbRelinked(units: Units, id: string, parent: string, x: string, n: nat)
    requires Linked(units) && id in units && Climbs(units, x, n, id)
    ensures Climbs(Relink(units, id, parent), x, n, id)
    decreases n
  {
    if n > 0 {
      LinkedIsAcyclic(units);
      assert x != id;
      ClimbRelinked(units, id, parent, units[x].parent, n - 1);
    }
  }

  /** The guard rejects exactly the moves that would close a cycle of parent links. */
  lemma GuardIsCycleTest(units: Units, id: string, parent: string)
    requires Linked(units) && id in units && parent in units && units[parent].tenant == units[id].tenant
    ensures units[id].path <= units[parent].path <==> !Acyclic(Relink(units, id, parent))
    ensures parent == id ==> units[id].path <= units[parent].path
  {
    hide MoveRows;
    var relinked := Relink(units, id, parent);
    if units[id].path <= units[parent].path {
      var n := PrefixClimb(units, id, parent);
      ClimbRelinked(units, id, parent, parent, n);
      assert Climbs(relinked, id, n + 1, id);
    } else {
      var newPath := BasePath(units, parent) + id + "/";
      assert LinkedAt(units, parent);
      MoveKeepsForest(units, id, parent, "", "", newPath, 0, "");
      var after := MoveRows(units, id, units[id].tenant, parent, "", "", units[id].path, newPath, 0, "");
      MoveTouchesDescendants(units, id, parent, "", "", newPath, 0, "");
      LinkedIsAcyclic(after);
      forall x, n: nat | n > 0 && x in relinked ensures !Climbs(relinked, x, n, x) {
        ClimbSameLinks(relinked, after, x, n, x);
      }
    }
  }

  // ----- Writes based on earlier reads -----

  /** The parent's stored path is still the one that was read. */
  predicate ParentUnmoved(units: Units, parent: string, seenParent: Option<Unit>) {
    parent == "" || (seenParent.Some? && parent in units && units[parent].path == seenParent.value.path)
  }

  /** What the read of a parent is known to share with the row at commit: rows are never
      deleted and never change tenant. */
  predicate ReadOf(units: Units, parent: string, seenParent: Option<Unit>) {
    parent != "" && seenParent.Some? ==>
      parent in units && seenParent.value.id == parent && seenParent.value.tenant == units[parent].tenant
  }

  /** A create keeps the forest if and only if nobody moved the parent since it was read. */
  lemma CreateKeepsForestIff(seenTenant: Option<Tenant>, seenParent: Option<Unit>, db: Database,
                             id: Uuid, tenant: string, parent: string, code: string, name: string,
                             now: int, actor: string)
    requires Linked(db.units) && ReadOf(db.units, parent, seenParent)
    requires CreateUnit(seenTenant, seenParent, db, id, tenant, parent, code, name, now, actor).Commit?
    ensures Linked(CreateUnit(seenTenant, seenParent, db, id, tenant, parent, code, name, now, actor).db.units)
       <==> ParentUnmoved(db.units, parent, seenParent)
  {
    hide CodeTaken, PathTaken, IsMember;
    var after := CreateUnit(seenTenant, seenParent, db, id, tenant, parent, code, name, now, actor).db.units;
    forall y | y in db.units ensures LinkedAt(after, y) {
      assert LinkedAt(db.units, y);
    }
    if Linked(after) {
      assert LinkedAt(after, id);
      if parent != "" {
        assert LinkedAt(after, parent);
        assert after[id].path == seenParent.value.path + id + "/";
        assert seenParent.value.path == after[id].path[..|after[id].path| - |id| - 1];
        assert after[parent].path == after[id].path[..|after[id].path| - |id| - 1];
      }
    }
  }

  /** A move based on reads of any age keeps the forest if and only if the new parent has not been
      moved since it was read. The unit itself is protected by its version. */
  lemma MoveKeepsForestIff(seen: Option<Unit>, seenParent: Option<Unit>, db: Database,
                           id: string, parent: string, name: string, status: string, version: int,
                           now: int, actor: string)
    requires Linked(db.units) && ReadOf(db.units, parent, seenParent)
    requires id in db.units && seen == Some(db.units[id])
    requires UpdateUnit(seen, seenParent, db, id, parent, name, status, version, now, actor).Commit?
    ensures Linked(UpdateUnit(seen, seenParent, db, id, parent, name, status, version, now, actor).db.units)
       <==> ParentUnmoved(db.units, parent, seenParent)
  {
    hide UniquePaths, MoveRows;
    var units := db.units;
    var newPath := NewPath(seenParent, parent, id);
    var after := MoveRows(units, id, units[id].tenant, parent, name, status, units[id].path, newPath, now, actor);
    assert LinkedAt(units, id);
    if ParentUnmoved(units, parent, seenParent) {
      MoveKeepsForest(units, id, parent, name, status, newPath, now, actor);
    } else {
      MoveTouchesDescendants(units, id, parent, name, status, newPath, now, actor);
      StaleParentPath(units, id, parent, name, status, seenParent.value.path, now, actor);
      assert !LinkedAt(after, id);
    }
  }

  /** With a stale parent path the moved row disagrees with its new parent, even if that parent
      has meanwhile slipped below it and is rewritten by the same UPDATE. */
  lemma StaleParentPath(units: Units, id: string, parent: string, name: string, status: string, stale: string,
                        now: int, actor: string)
    requires Linked(units) && id in units && parent in units && parent != id && stale != units[parent].path
    ensures var newPath := stale + id + "/";
            var after := MoveRows(units, id, units[id].tenant, parent, name, status, units[id].path, newPath, now, actor);
            parent in after && after[id].path != after[parent].path + id + "/"
  {
    hide MoveRows;
    var newPath := stale + id + "/";
    var after := MoveRows(units, id, units[id].tenant, parent, name, status, units[id].path, newPath, now, actor);
    MovedRow(units, id, parent, name, status, newPath, now, actor, parent);
    var rebuilt := after[parent].path + id + "/";
    if |after[parent].path| == |stale| {
      assert newPath[..|stale|] == stale && rebuilt[..|stale|] == after[parent].path;
    }
  }

  // ----- Accepted moves -----

  /** A path of the form base/x/ with a base that ends in the separator. */
  predicate EndsWithOwnId(path: string, x: string) {
    var k := |path| - |x| - 1;
    SlashFree(x) && k > 0 && path[k - 1] == '/' && path[k..] == x + "/"
  }

  lemma OwnIdsDistinguish(units: Units)
    requires forall x | x in units :: EndsWithOwnId(units[x].path, x)
    ensures UniquePaths(units)
  {
    forall x, y | x in units && y in units && units[x].path == units[y].path ensures x == y {
      var p := units[x].path;
      var (k, m) := (|p| - |x| - 1, |p| - |y| - 1);
      assert p == p[..k] + x + "/" && p == p[..m] + y + "/";
      PathNamesRow(p[..k], x, p[..m], y);
    }
  }

  lemma LinkedOwnId(units: Units, x: string)
    requires Linked(units) && x in units
    ensures EndsWithOwnId(units[x].path, x)
  {
    assert LinkedAt(units, x);
    BaseShape(units, x);
  }

  /** Neither UPDATE statement of a move ever runs into the unique path constraint. */
  lemma PathConstraintNeverFires(units: Units, id: string, parent: string, name: string, status: string,
                                 now: int, actor: string)
    requires Linked(units) && Placeable(units, id, parent)
    ensures var newPath := BasePath(units, parent) + id + "/";
            && UniquePaths(units[id := Relocated(units[id], parent, name, status, newPath, now, actor)])
            && UniquePaths(MoveRows(units, id, units[id].tenant, parent, name, status, units[id].path, newPath, now, actor))
  {
    hide MoveRows, EndsWithOwnId, UniquePaths;
    var newPath := BasePath(units, parent) + id + "/";
    var after := MoveRows(units, id, units[id].tenant, parent, name, status, units[id].path, newPath, now, actor);
    var units1 := units[id := Relocated(units[id], parent, name, status, newPath, now, actor)];
    MoveKeepsForest(units, id, parent, name, status, newPath, now, actor);
    MoveTouchesDescendants(units, id, parent, name, status, newPath, now, actor);
    forall x | x in after ensures EndsWithOwnId(after[x].path, x) { LinkedOwnId(after, x); }
    forall x | x in units1 ensures EndsWithOwnId(units1[x].path, x) {
      LinkedOwnId(units, x);
      LinkedOwnId(after, x);
    }
    OwnIdsDistinguish(after);
    OwnIdsDistinguish(units1);
  }

  lemma RowsCarryIds(units: Units, x: string)
    requires Linked(units) && x in units
    ensures units[x].id == x && x != ""
  {
    assert LinkedAt(units, x);
  }

  lemma FreshPath(units: Units, parent: string, id: string)
    requires parent != "" ==> parent in units
    ensures NewPath(Get(units, parent), parent, id) == BasePath(units, parent) + id + "/"
  {
  }

  /** On fresh reads: the unit is at the given version and may go under the active parent. */
  predicate MayMove(units: Units, id: string, parent: string, version: int) {
    && Placeable(units, id, parent)
    && units[id].version == version
    && (parent != "" ==> units[parent].status == "active")
  }

  lemma MoveAccepted(db: Database, id: string, parent: string, name: string, status: string, version: int,
                     now: int, actor: string)
    requires Linked(db.units) && name != "" && status in {"active", "disabled"} && version >= 1
    requires MayMove(db.units, id, parent, version)
    ensures var outcome := UpdateUnit(Get(db.units, id), Get(db.units, parent), db, id, parent, name, status, version, now, actor);
            && outcome.Commit?
            && outcome.db.units == MoveRows(db.units, id, db.units[id].tenant, parent, name, status, db.units[id].path,
                                            BasePath(db.units, parent) + id + "/", now, actor)
  {
    PathConstraintNeverFires(db.units, id, parent, name, status, now, actor);
    FreshPath(db.units, parent, id);
    RowsCarryIds(db.units, id);
    if parent != "" {
      RowsCarryIds(db.units, parent);
    }
    hide MoveRows, UniquePaths, Linked, NewPath, Relocated, BasePath;
  }

  lemma MoveRefused(db: Database, id: string, parent: string, name: string, status: string, version: int,
                    now: int, actor: string)
    requires id in db.units && !MayMove(db.units, id, parent, version)
    ensures !UpdateUnit(Get(db.units, id), Get(db.units, parent), db, id, parent, name, status, version, now, actor).Commit?
  {
    hide MoveRows, UniquePaths, NewPath, Relocated;
  }

  /** On fresh reads a well-formed move commits exactly when the unit is at the given version, the parent is
      active in its tenant, and the parent is not at or below the unit; and it does what MoveRows says. */
  lemma MoveCommits(db: Database, id: string, parent: string, name: string, status: string, version: int,
                    now: int, actor: string)
    requires Linked(db.units) && id in db.units && name != "" && status in {"active", "disabled"} && version >= 1
    ensures var outcome := UpdateUnit(Get(db.units, id), Get(db.units, parent), db, id, parent, name, status, version, now, actor);
            && (outcome.Commit? <==> MayMove(db.units, id, parent, version))
            && (outcome.Commit? ==>
                  outcome.db.units == MoveRows(db.units, id, db.units[id].tenant, parent, name, status, db.units[id].path,
                                               BasePath(db.units, parent) + id + "/", now, actor))
  {
    hide UpdateUnit, MoveRows, Linked;
    if MayMove(db.units, id, parent, version) {
      MoveAccepted(db, id, parent, name, status, version, now, actor);
    } else {
      MoveRefused(db, id, parent, name, status, version, now, actor);
    }
  }

  // ----- Moving there and back -----

  /** Moving a unit away and then back under its old parent restores every parent link and every path; of the other
      fields only versions and audit stamps differ, and on the unit itself what the moves were told to set. */
  lemma MoveRoundTrip(units: Units, id: string, parent: string, name: string, status: string, now: int, actor: string,
                      name2: string, status2: string, now2: int, actor2: string)
    requires Linked(units) && Placeable(units, id, parent)
    ensures var there := MoveRows(units, id, units[id].tenant, parent, name, status, units[id].path,
                                  BasePath(units, parent) + id + "/", now, actor);
            && id in there && Linked(there) && Placeable(there, id, units[id].parent)
            && var back := MoveRows(there, id, there[id].tenant, units[id].parent, name2, status2, there[id].path,
                                    BasePath(there, units[id].parent) + id + "/", now2, actor2);
               && back.Keys == units.Keys
               && back[id] == units[id].(name := name2, status := status2, version := units[id].version + 2,
                                         audit := back[id].audit)
               && forall x | x in units && x != id ::
                    back[x] == units[x].(version := back[x].version, audit := back[x].audit)
  {
    hide MoveRows;
    var home := units[id].parent;
    var newPath := BasePath(units, parent) + id + "/";
    var there := MoveRows(units, id, units[id].tenant, parent, name, status, units[id].path, newPath, now, actor);
    MoveKeepsForest(units, id, parent, name, status, newPath, now, actor);
    MoveTouchesDescendants(units, id, parent, name, status, newPath, now, actor);
    assert LinkedAt(units, id);
    if home != "" {
      HomeStaysPlaceable(units, there, id);
    }
    var homePath := BasePath(there, home) + id + "/";
    var back := MoveRows(there, id, there[id].tenant, home, name2, status2, there[id].path, homePath, now2, actor2);
    MoveKeepsForest(there, id, home, name2, status2, homePath, now2, actor2);
    MoveTouchesDescendants(there, id, home, name2, status2, homePath, now2, actor2);
    forall x | x in units ensures back[x].parent == units[x].parent && back[x].path == units[x].path {
      LinksDeterminePaths(units, back, x);
    }
  }

  /** Both moves of the round trip commit, when made on fresh reads and while the old parent is active. */
  lemma MoveRoundTripCommits(db: Database, id: string, parent: string, name: string, status: string, version: int,
                             now: int, actor: string, name2: string, status2: string, now2: int, actor2: string)
    requires Linked(db.units) && version >= 1 && MayMove(db.units, id, parent, version)
    requires name != "" && name2 != "" && status in {"active", "disabled"} && status2 in {"active", "disabled"}
    requires var home := db.units[id].parent; home != "" && home in db.units ==> db.units[home].status == "active"
    ensures var home := db.units[id].parent;
            var one := UpdateUnit(Get(db.units, id), Get(db.units, parent), db, id, parent, name, status, version, now, actor);
            && one.Commit?
            && var two := UpdateUnit(Get(one.db.units, id), Get(one.db.units, home), one.db, id, home, name2, status2,
                                     version + 1, now2, actor2);
               && two.Commit? && two.db.units.Keys == db.units.Keys
               && forall x | x in db.units ::
                    two.db.units[x].parent == db.units[x].parent && two.db.units[x].path == db.units[x].path
  {
    hide UpdateUnit, MoveRows, Linked;
    var newPath := BasePath(db.units, parent) + id + "/";
    MoveRoundTrip(db.units, id, parent, name, status, now, actor, name2, status2, now2, actor2);
    MoveTouchesDescendants(db.units, id, parent, name, status, newPath, now, actor);
    MoveAccepted(db, id, parent, name, status, version, now, actor);
    var one := UpdateUnit(Get(db.units, id), Get(db.units, parent), db, id, parent, name, status, version, now, actor);
    MoveAccepted(one.db, id, db.units[id].parent, name2, status2, version + 1, now2, actor2);
  }

  /** The old parent of a moved unit does not end up below it. */
  lemma HomeStaysPlaceable(units: Units, there: Units, id: string)
    requires Linked(units) && Linked(there) && units.Keys == there.Keys && id in units
    requires forall x | x in units :: there[x].tenant == units[x].tenant
    requires forall x | x in units && x != id :: there[x].parent == units[x].parent
    requires units[id].parent != ""
    ensures Placeable(there, id, units[id].parent)
  {
    var home := units[id].parent;
    assert LinkedAt(units, id) && LinkedAt(units, home);
    if there[id].path <= there[home].path {
      var n := PrefixClimb(there, id, home);
      ClimbRelinked(there, id, home, home, n);
      ClimbSameLinks(Relink(there, id, home), units, home, n, id);
      ClimbShortens(units, home, n, id);
    }
  }
}
