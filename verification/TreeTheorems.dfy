/** What a built tree contains: exactness on any input, truncation on acyclic input, and its order. */
module TreeTheorems {
  import opened Text
  import opened Tables
  import opened Forest
  import opened Listing
  import opened Trees

  // ----- No unit occurs twice -----

  lemma NoRepeatsConcat(a: seq<Unit>, b: seq<Unit>)
    requires NoRepeats(a) && NoRepeats(b)
    requires forall u, v | u in a && v in b :: u.id != v.id
    ensures NoRepeats(a + b)
  {
  }

  /** If the first kid's subtree and the rest of the row share a node, the common parent is in the row. */
  lemma {:induction false} Meet(items: seq<Unit>, lim: Limits, parent: string, kids: seq<Unit>, depth: nat,
                                ancestors: set<string>, count: nat, x: string, n: nat)
    requires UniqueIds(items) && depth <= lim.maxDepth && Siblings(items, parent, kids)
    requires Takes(lim, kids, ancestors, count)
    requires var sub := Level(items, lim, kids[0].id, depth + 1, ancestors + {kids[0].id}, count + 1);
             && (x == kids[0].id || x in Ids(sub.nodes))
             && x in Ids(Row(items, lim, kids[1..], depth, ancestors, sub.count).nodes)
    requires Climbs(Table(items), x, n, kids[0].id)
    ensures parent in Ids(Row(items, lim, kids, depth, ancestors, count).nodes)
    decreases n
  {
    hide UniqueIds, Row, Level, Ids, Kids, Table;
    var k := kids[0];
    var sub := Level(items, lim, k.id, depth + 1, ancestors + {k.id}, count + 1);
    RowUnfolds(items, lim, kids, depth, ancestors, count);
    SiblingsTail(items, parent, kids);
    var i, m := RowMember(items, lim, parent, kids[1..], depth, ancestors, sub.count, x);
    if x == k.id {
      KidClimbs(items, parent, kids, 0);
    } else {
      var j := LevelMember(items, lim, k.id, depth + 1, ancestors + {k.id}, count + 1, x);
      if m == 0 {
        KidClimbs(items, parent, kids[1..], i);
        if j == 1 {
          assert Climbs(Table(items), Table(items)[x].parent, 0, k.id);
        }
      } else {
        if j == 1 {
          assert Climbs(Table(items), Table(items)[x].parent, 0, k.id);
        }
        Meet(items, lim, parent, kids, depth, ancestors, count, Table(items)[x].parent, n - 1);
      }
    }
  }

  lemma SubtreesDisjoint(items: seq<Unit>, lim: Limits, parent: string, kids: seq<Unit>, depth: nat,
                         ancestors: set<string>, count: nat, x: string)
    requires UniqueIds(items) && depth <= lim.maxDepth && Siblings(items, parent, kids)
    requires Takes(lim, kids, ancestors, count)
    requires parent !in Ids(Row(items, lim, kids, depth, ancestors, count).nodes)
    ensures var sub := Level(items, lim, kids[0].id, depth + 1, ancestors + {kids[0].id}, count + 1);
            x == kids[0].id || x in Ids(sub.nodes)
            ==> x !in Ids(Row(items, lim, kids[1..], depth, ancestors, sub.count).nodes)
  {
    hide UniqueIds, Row, Level, Ids, Kids, Table, Siblings;
    var k := kids[0];
    var sub := Level(items, lim, k.id, depth + 1, ancestors + {k.id}, count + 1);
    if x in Ids(Row(items, lim, kids[1..], depth, ancestors, sub.count).nodes) {
      if x == k.id {
        Meet(items, lim, parent, kids, depth, ancestors, count, x, 0);
      } else if x in Ids(sub.nodes) {
        var n := LevelMember(items, lim, k.id, depth + 1, ancestors + {k.id}, count + 1, x);
        Meet(items, lim, parent, kids, depth, ancestors, count, x, n);
      }
    }
  }

  lemma {:induction false} LevelNoRepeats(items: seq<Unit>, lim: Limits, parent: string, depth: nat,
                                          ancestors: set<string>, count: nat)
    requires UniqueIds(items) && depth <= lim.maxDepth + 1
    requires parent !in Ids(Level(items, lim, parent, depth, ancestors, count).nodes)
    ensures NoRepeats(Flatten(Level(items, lim, parent, depth, ancestors, count).nodes))
    decreases lim.maxDepth + 1 - depth
  {
    hide UniqueIds, Row, Ids, Kids;
    if depth <= lim.maxDepth {
      KidsAreSiblings(items, parent);
      RowNoRepeats(items, lim, parent, Kids(items, parent), depth, ancestors, count);
    }
  }

  lemma {:induction false} RowNoRepeats(items: seq<Unit>, lim: Limits, parent: string, kids: seq<Unit>, depth: nat,
                                        ancestors: set<string>, count: nat)
    requires UniqueIds(items) && depth <= lim.maxDepth && Siblings(items, parent, kids)
    requires parent !in Ids(Row(items, lim, kids, depth, ancestors, count).nodes)
    ensures NoRepeats(Flatten(Row(items, lim, kids, depth, ancestors, count).nodes))
    decreases lim.maxDepth + 1 - depth, |kids|
  {
    hide UniqueIds, Row, Level, Ids, Kids, Table, Siblings, Flatten;
    if !Takes(lim, kids, ancestors, count) {
      RowSkips(items, lim, kids, depth, ancestors, count);
      if kids != [] && count < lim.maxNodes {
        SiblingsTail(items, parent, kids);
        RowNoRepeats(items, lim, parent, kids[1..], depth, ancestors, count);
      }
    } else {
      var k := kids[0];
      var sub := Level(items, lim, k.id, depth + 1, ancestors + {k.id}, count + 1);
      var rest := Row(items, lim, kids[1..], depth, ancestors, sub.count);
      RowUnfolds(items, lim, kids, depth, ancestors, count);
      SiblingsTail(items, parent, kids);
      LevelAvoids(items, lim, k.id, depth + 1, ancestors + {k.id}, count + 1);
      LevelNoRepeats(items, lim, k.id, depth + 1, ancestors + {k.id}, count + 1);
      RowNoRepeats(items, lim, parent, kids[1..], depth, ancestors, sub.count);
      forall u | u in Flatten(sub.nodes) ensures u.id in Ids(sub.nodes) {
        LevelFlat(items, lim, k.id, depth + 1, ancestors + {k.id}, count + 1, u);
      }
      forall v | v in Flatten(rest.nodes) ensures v.id in Ids(rest.nodes) {
        RowFlat(items, lim, parent, kids[1..], depth, ancestors, sub.count, v);
      }
      forall u, v | u in [k] + Flatten(sub.nodes) && v in Flatten(rest.nodes) ensures u.id != v.id {
        SubtreesDisjoint(items, lim, parent, kids, depth, ancestors, count, u.id);
      }
      NoRepeatsConcat([k], Flatten(sub.nodes));
      NoRepeatsConcat([k] + Flatten(sub.nodes), Flatten(rest.nodes));
    }
  }

  // ----- Exactness on any input -----

  /** A unit that climbs to the root is in a complete tree. */
  lemma {:induction false} ReachableIncluded(items: seq<Unit>, lim: Limits, root: string, x: string, n: nat)
    requires UniqueIds(items) && !Tree(items, lim, root).truncated
    requires n > 0 && Climbs(Table(items), x, n, root)
    ensures x in Ids(Tree(items, lim, root).nodes)
    decreases n
  {
    hide UniqueIds, Level, Ids;
    TableKeys(items, x);
    var u := Table(items)[x];
    if n > 1 {
      ReachableIncluded(items, lim, root, u.parent, n - 1);
    }
    LevelComplete(items, lim, root, 1, {}, 0, u);
  }

  /** Whatever the items - even cyclic - nothing but reachable items enters a tree; and an untruncated
      tree holds every item reachable from the root, exactly once. */
  lemma TreeExact(items: seq<Unit>, lim: Limits, root: string)
    requires UniqueIds(items)
    ensures var b := Tree(items, lim, root);
            && (forall u | u in Flatten(b.nodes) :: u in items && Reachable(items, root, u.id))
            && (!b.truncated ==>
                  && NoRepeats(Flatten(b.nodes))
                  && (forall u | u in items && Reachable(items, root, u.id) :: u in Flatten(b.nodes)))
  {
    hide UniqueIds, Row, Ids, Flatten, Kids, Siblings, NoRepeats, Table;
    var b := Tree(items, lim, root);
    forall u | u in Flatten(b.nodes) ensures u in items && Reachable(items, root, u.id) {
      LevelFlat(items, lim, root, 1, {}, 0, u);
      var n := LevelMember(items, lim, root, 1, {}, 0, u.id);
    }
    if !b.truncated {
      KidsAreSiblings(items, root);
      if lim.maxDepth >= 1 {
        RowOmitsParent(items, lim, root, Kids(items, root), 1, {}, 0);
      } else {
        EmptyIds();
      }
      LevelNoRepeats(items, lim, root, 1, {}, 0);
      forall u | u in items && Reachable(items, root, u.id) ensures u in Flatten(b.nodes) {
        var n: nat :| n > 0 && Climbs(Table(items), u.id, n, root);
        ReachableIncluded(items, lim, root, u.id, n);
        LevelFlat(items, lim, root, 1, {}, 0, u);
      }
    }
  }

  // ----- Truncation on acyclic input -----

  /** On acyclic data nothing hangs below two different siblings. */
  lemma SiblingsApart(m: Units, x: string, i: nat, a: string, j: nat, b: string, p: string)
    requires Acyclic(m) && a in m && b in m && a != b && m[a].parent == p && m[b].parent == p
    requires Climbs(m, x, i, a)
    ensures !Climbs(m, x, j, b)
  {
    var d: nat := if i <= j then j - i else i - j;
    NoClimbToSibling(m, a, d, b, p);
    NoClimbToSibling(m, b, d, a, p);
    if Climbs(m, x, j, b) {
      if i <= j {
        ClimbSplit(m, x, i, a, d, b);
      } else {
        ClimbSplit(m, x, j, b, d, a);
      }
    }
  }

  lemma NoClimbToSibling(m: Units, a: string, n: nat, b: string, p: string)
    requires Acyclic(m) && a in m && b in m && a != b && m[a].parent == p && m[b].parent == p
    ensures !Climbs(m, a, n, b)
  {
    if n > 0 && Climbs(m, p, n - 1, b) {
      assert Climbs(m, b, n, b);
    }
  }

  /** Every ancestor passed down really is above the parent. */
  ghost predicate Above(m: Units, parent: string, ancestors: set<string>) {
    forall a | a in ancestors :: exists n: nat :: Climbs(m, parent, n, a)
  }

  lemma AboveExtends(m: Units, parent: string, ancestors: set<string>, k: string)
    requires Above(m, parent, ancestors) && k in m && m[k].parent == parent
    ensures Above(m, k, ancestors + {k})
  {
    forall a | a in ancestors + {k} ensures exists n: nat :: Climbs(m, k, n, a) {
      if a == k {
        assert Climbs(m, k, 0, a);
      } else {
        var n: nat :| Climbs(m, parent, n, a);
        assert Climbs(m, k, n + 1, a);
      }
    }
  }

  lemma NotAbove(m: Units, parent: string, ancestors: set<string>, k: string)
    requires Acyclic(m) && Above(m, parent, ancestors) && k in m && m[k].parent == parent
    ensures k !in ancestors
  {
    if k in ancestors {
      var n: nat :| Climbs(m, parent, n, k);
      assert Climbs(m, k, n + 1, k);
    }
  }

  lemma {:induction false} LevelMissing(items: seq<Unit>, lim: Limits, parent: string, depth: nat,
                                        ancestors: set<string>, count: nat) returns (x: string, n: nat)
    requires UniqueIds(items) && Acyclic(Table(items)) && depth <= lim.maxDepth + 1
    requires Above(Table(items), parent, ancestors)
    requires Level(items, lim, parent, depth, ancestors, count).truncated
    ensures x in Table(items) && n > 0 && Climbs(Table(items), x, n, parent)
    ensures x !in Ids(Level(items, lim, parent, depth, ancestors, count).nodes)
    decreases lim.maxDepth + 1 - depth
  {
    hide UniqueIds, Row, Ids, Kids, Siblings, Above, Acyclic, Table;
    KidsAreSiblings(items, parent);
    if depth > lim.maxDepth {
      KidClimbs(items, parent, Kids(items, parent), 0);
      EmptyIds();
      x, n := Kids(items, parent)[0].id, 1;
    } else {
      var i, k;
      x, k, i := RowMissing(items, lim, parent, Kids(items, parent), depth, ancestors, count);
      KidClimbs(items, parent, Kids(items, parent), i);
      ClimbJoin(Table(items), x, k, Kids(items, parent)[i].id, 1, parent);
      n := k + 1;
    }
  }

  /** A truncated row misses something below one of its kids. */
  lemma {:induction false} RowMissing(items: seq<Unit>, lim: Limits, parent: string, kids: seq<Unit>, depth: nat,
                                      ancestors: set<string>, count: nat) returns (x: string, n: nat, i: nat)
    requires UniqueIds(items) && Acyclic(Table(items)) && depth <= lim.maxDepth && Siblings(items, parent, kids)
    requires Above(Table(items), parent, ancestors)
    requires Row(items, lim, kids, depth, ancestors, count).truncated
    ensures i < |kids| && x in Table(items) && Climbs(Table(items), x, n, kids[i].id)
    ensures x !in Ids(Row(items, lim, kids, depth, ancestors, count).nodes)
    decreases lim.maxDepth + 1 - depth, |kids|
  {
    hide UniqueIds, Row, Level, Ids, Kids, Above, Acyclic, Table;
    if !Takes(lim, kids, ancestors, count) {
      RowSkips(items, lim, kids, depth, ancestors, count);
      KidClimbs(items, parent, kids, 0);
      NotAbove(Table(items), parent, ancestors, kids[0].id);
      x, n, i := kids[0].id, 0, 0;
    } else {
      var (k, m) := (kids[0], Table(items));
      var sub := Level(items, lim, k.id, depth + 1, ancestors + {k.id}, count + 1);
      var rest := Row(items, lim, kids[1..], depth, ancestors, sub.count);
      RowUnfolds(items, lim, kids, depth, ancestors, count);
      SiblingsTail(items, parent, kids);
      KidClimbs(items, parent, kids, 0);
      if sub.truncated {
        AboveExtends(m, parent, ancestors, k.id);
        x, n := LevelMissing(items, lim, k.id, depth + 1, ancestors + {k.id}, count + 1);
        i := 0;
        NoCycleAt(m, k.id, n);
        if x in Ids(rest.nodes) {
          var j, l := RowMember(items, lim, parent, kids[1..], depth, ancestors, sub.count, x);
          KidClimbs(items, parent, kids[1..], j);
          SiblingsApart(m, x, n, k.id, l, kids[1..][j].id, parent);
        }
      } else {
        x, n, i := RowMissing(items, lim, parent, kids[1..], depth, ancestors, sub.count);
        KidClimbs(items, parent, kids[1..], i);
        if x in Ids(sub.nodes) {
          var l := LevelMember(items, lim, k.id, depth + 1, ancestors + {k.id}, count + 1, x);
          SiblingsApart(m, x, l, k.id, n, kids[1..][i].id, parent);
        }
        NoClimbToSibling(m, k.id, n, kids[1..][i].id, parent);
        i := i + 1;
      }
    }
  }

  lemma NoCycleAt(m: Units, k: string, n: nat)
    requires Acyclic(m) && k in m && n > 0
    ensures !Climbs(m, k, n, k)
  {
  }

  /** On acyclic data no unit occurs twice, and the truncated flag is set exactly when some item
      reachable from the root is missing. */
  lemma TruncatedIffMissing(items: seq<Unit>, lim: Limits, root: string)
    requires UniqueIds(items) && Acyclic(Table(items))
    ensures var b := Tree(items, lim, root);
            && NoRepeats(Flatten(b.nodes))
            && (b.truncated <==> exists u :: u in items && Reachable(items, root, u.id) && u !in Flatten(b.nodes))
  {
    hide UniqueIds, Row, Level, Ids, Flatten, Kids, Siblings, NoRepeats, Acyclic, Table;
    var b := Tree(items, lim, root);
    if root in Ids(b.nodes) {
      var n := LevelMember(items, lim, root, 1, {}, 0, root);
      NoCycleAt(Table(items), root, n);
    }
    LevelNoRepeats(items, lim, root, 1, {}, 0);
    if b.truncated {
      var x, n := LevelMissing(items, lim, root, 1, {}, 0);
      TableKeys(items, x);
      var u := Table(items)[x];
      LevelFlat(items, lim, root, 1, {}, 0, u);
      assert u in items && Reachable(items, root, u.id) && u !in Flatten(b.nodes);
    } else {
      TreeExact(items, lim, root);
    }
  }

  // ----- Order -----

  lemma OrderedConcat(a: seq<Unit>, b: seq<Unit>)
    requires Ordered(ByPath, false, a) && Ordered(ByPath, false, b)
    requires forall u, v | u in a && v in b :: Before(ByPath, false, u, v)
    ensures Ordered(ByPath, false, a + b)
  {
    hide Before;
    var s := a + b;
    forall i, j | 0 <= i < j < |s| ensures Before(ByPath, false, s[i], s[j]) {
      if i < |a| && j >= |a| {
        assert s[i] in a && s[j] in b;
      }
    }
  }

  /** Below one sibling comes before below the next: neither sibling's path is a prefix of the other's. */
  lemma CousinsOrdered(m: Units, a: string, b: string, x: string, i: nat, y: string, j: nat)
    requires Linked(m) && a in m && b in m && a != b && m[a].parent == m[b].parent
    requires Before(ByPath, false, m[a], m[b])
    requires x in m && y in m && Climbs(m, x, i, a) && Climbs(m, y, j, b)
    ensures Before(ByPath, false, m[x], m[y])
  {
    LinkedIsAcyclic(m);
    if m[a].path <= m[b].path {
      var n := PrefixClimb(m, a, b);
      NoClimbToSibling(m, b, n, a, m[a].parent);
    }
    ClimbShortens(m, x, i, a);
    ClimbShortens(m, y, j, b);
    LessExtends(m[a].path, m[b].path, m[x].path, m[y].path);
    LessIrreflexive(m[x].path);
  }

  /** A unit comes before everything below it. */
  lemma ParentFirst(m: Units, k: string, x: string, n: nat)
    requires Linked(m) && k in m && x in m && n > 0 && Climbs(m, x, n, k)
    ensures Before(ByPath, false, m[k], m[x])
  {
    ClimbShortens(m, x, n, k);
    PrefixLess(m[k].path, m[x].path);
  }

  lemma {:induction false} LevelOrdered(items: seq<Unit>, lim: Limits, parent: string, depth: nat,
                                        ancestors: set<string>, count: nat)
    requires UniqueIds(items) && Linked(Table(items)) && depth <= lim.maxDepth + 1
    ensures Ordered(ByPath, false, Flatten(Level(items, lim, parent, depth, ancestors, count).nodes))
    decreases lim.maxDepth + 1 - depth
  {
    hide UniqueIds, Row, Ids, Kids, Linked;
    if depth <= lim.maxDepth {
      KidsAreSiblings(items, parent);
      RowOrdered(items, lim, parent, Kids(items, parent), depth, ancestors, count);
    }
  }

  lemma {:induction false} RowOrdered(items: seq<Unit>, lim: Limits, parent: string, kids: seq<Unit>, depth: nat,
                                      ancestors: set<string>, count: nat)
    requires UniqueIds(items) && Linked(Table(items)) && depth <= lim.maxDepth && Siblings(items, parent, kids)
    ensures Ordered(ByPath, false, Flatten(Row(items, lim, kids, depth, ancestors, count).nodes))
    decreases lim.maxDepth + 1 - depth, |kids|
  {
    hide UniqueIds, Row, Level, Ids, Kids, Table, Siblings, Flatten, Linked, Before;
    if !Takes(lim, kids, ancestors, count) {
      RowSkips(items, lim, kids, depth, ancestors, count);
      if kids != [] && count < lim.maxNodes {
        SiblingsTail(items, parent, kids);
        RowOrdered(items, lim, parent, kids[1..], depth, ancestors, count);
      }
    } else {
      var k := kids[0];
      var sub := Level(items, lim, k.id, depth + 1, ancestors + {k.id}, count + 1);
      var rest := Row(items, lim, kids[1..], depth, ancestors, sub.count);
      RowUnfolds(items, lim, kids, depth, ancestors, count);
      SiblingsTail(items, parent, kids);
      KidClimbs(items, parent, kids, 0);
      LevelOrdered(items, lim, k.id, depth + 1, ancestors + {k.id}, count + 1);
      RowOrdered(items, lim, parent, kids[1..], depth, ancestors, sub.count);
      forall u | u in Flatten(sub.nodes) ensures Before(ByPath, false, k, u) {
        var n := SubMember(items, lim, parent, kids, depth, ancestors, count, u);
        ParentFirst(Table(items), k.id, u.id, n);
      }
      forall u, v | u in [k] + Flatten(sub.nodes) && v in Flatten(rest.nodes) ensures Before(ByPath, false, u, v) {
        HeadBeforeRest(items, lim, parent, kids, depth, ancestors, count, u, v);
      }
      OrderedConcat([k], Flatten(sub.nodes));
      OrderedConcat([k] + Flatten(sub.nodes), Flatten(rest.nodes));
    }
  }

  lemma SubMember(items: seq<Unit>, lim: Limits, parent: string, kids: seq<Unit>, depth: nat,
                  ancestors: set<string>, count: nat, u: Unit) returns (n: nat)
    requires UniqueIds(items) && depth <= lim.maxDepth && kids != []
    requires u in Flatten(Level(items, lim, kids[0].id, depth + 1, ancestors + {kids[0].id}, count + 1).nodes)
    ensures n > 0 && u.id in Table(items) && Table(items)[u.id] == u && Climbs(Table(items), u.id, n, kids[0].id)
  {
    hide UniqueIds, Level, Ids, Table, Flatten;
    LevelFlat(items, lim, kids[0].id, depth + 1, ancestors + {kids[0].id}, count + 1, u);
    n := LevelMember(items, lim, kids[0].id, depth + 1, ancestors + {kids[0].id}, count + 1, u.id);
    TableRow(items, u);
  }

  lemma HeadBeforeRest(items: seq<Unit>, lim: Limits, parent: string, kids: seq<Unit>, depth: nat,
                       ancestors: set<string>, count: nat, u: Unit, v: Unit)
    requires UniqueIds(items) && Linked(Table(items)) && depth <= lim.maxDepth && Siblings(items, parent, kids)
    requires Takes(lim, kids, ancestors, count)
    requires var sub := Level(items, lim, kids[0].id, depth + 1, ancestors + {kids[0].id}, count + 1);
             && (u == kids[0] || u in Flatten(sub.nodes))
             && v in Flatten(Row(items, lim, kids[1..], depth, ancestors, sub.count).nodes)
    ensures Before(ByPath, false, u, v)
  {
    hide UniqueIds, Row, Level, Ids, Kids, Table, Flatten, Linked, Before;
    var (k, m) := (kids[0], Table(items));
    var sub := Level(items, lim, k.id, depth + 1, ancestors + {k.id}, count + 1);
    SiblingsTail(items, parent, kids);
    KidClimbs(items, parent, kids, 0);
    RowFlat(items, lim, parent, kids[1..], depth, ancestors, sub.count, v);
    var i, l := RowMember(items, lim, parent, kids[1..], depth, ancestors, sub.count, v.id);
    KidClimbs(items, parent, kids[1..], i);
    TableRow(items, v);
    assert kids[1..][i] == kids[i + 1];
    var n := 0;
    if u == k {
      assert Climbs(m, u.id, 0, k.id);
    } else {
      n := SubMember(items, lim, parent, kids, depth, ancestors, count, u);
    }
    CousinsOrdered(m, k.id, kids[i + 1].id, u.id, n, v.id, l);
  }

  /** Tree order is path order: if the items form a forest, reading an untruncated full tree node by
      node, parents first, gives exactly the items sorted by path. */
  lemma TreeOrderIsPathOrder(items: seq<Unit>, lim: Limits)
    requires UniqueIds(items) && IsForest(Table(items)) && !Tree(items, lim, "").truncated
    ensures Flatten(Tree(items, lim, "").nodes) == Sort(ByPath, false, items)
  {
    hide UniqueIds, Level, Ids, Table, Flatten, Linked, Ordered, IsForest;
    LinkedIsForest(Table(items));
    TreeExact(items, lim, "");
    LevelOrdered(items, lim, "", 1, {}, 0);
    var flat := Flatten(Tree(items, lim, "").nodes);
    forall u ensures u in flat <==> u in items {
      if u in items {
        TableRow(items, u);
        var n := RootClimb(Table(items), u.id);
        assert Reachable(items, "", u.id);
      }
    }
    SortIsTheSort(ByPath, false, items, flat);
  }
}
