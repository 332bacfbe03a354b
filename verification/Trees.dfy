/** buildOrganizationTree: a bounded tree over any list of units, cyclic ones included. */
module Trees {
  import opened Tables
  import opened Forest
  import opened Listing

  datatype Node = Node(item: Unit, children: seq<Node>, hasChildren: bool)

  /** A list of nodes, the number of nodes counted so far, and whether anything was cut. */
  datatype Built = Built(nodes: seq<Node>, count: nat, truncated: bool)

  datatype Limits = Limits(maxDepth: nat, maxNodes: nat)

  // ----- The items as a table -----

  /** The items by id; of equal ids the last one counts. */
  function Table(items: seq<Unit>): Units {
    if items == [] then map[]
    else Table(items[..|items| - 1])[items[|items| - 1].id := items[|items| - 1]]
  }

  lemma {:induction false} TableKeys(items: seq<Unit>, x: string)
    ensures x in Table(items) <==> exists u :: u in items && u.id == x
    ensures x in Table(items) ==> Table(items)[x] in items && Table(items)[x].id == x
  {
    if items != [] {
      var before := items[..|items| - 1];
      TableKeys(before, x);
      assert items == before + [items[|items| - 1]];
    }
  }

  lemma TableRow(items: seq<Unit>, u: Unit)
    requires UniqueIds(items)
    ensures u in items <==> u.id in Table(items) && Table(items)[u.id] == u
  {
    TableKeys(items, u.id);
  }

  function HasParent(parent: string): Unit -> bool {
    (u: Unit) => u.parent == parent
  }

  /** The children of `parent`, sorted by path. */
  function Kids(items: seq<Unit>, parent: string): seq<Unit> {
    Sort(ByPath, false, Filter(items, HasParent(parent)))
  }

  lemma KidsAre(items: seq<Unit>, parent: string, u: Unit)
    ensures u in Kids(items, parent) <==> u in items && u.parent == parent
  {
    SortSame(ByPath, false, Filter(items, HasParent(parent)), u);
  }

  /** `kids` are distinct items with the given parent, in path order. */
  predicate Siblings(items: seq<Unit>, parent: string, kids: seq<Unit>) {
    && Ordered(ByPath, false, kids)
    && (forall i, j | 0 <= i < j < |kids| :: kids[i].id != kids[j].id)
    && (forall i | 0 <= i < |kids| :: kids[i].parent == parent && kids[i] in items)
  }

  lemma KidsAreSiblings(items: seq<Unit>, parent: string)
    requires UniqueIds(items)
    ensures Siblings(items, parent, Kids(items, parent))
  {
    var p := HasParent(parent);
    var kids := Kids(items, parent);
    FilterUnique(items, p);
    SortOrdered(ByPath, false, Filter(items, p));
    forall i | 0 <= i < |kids| ensures kids[i].parent == parent && kids[i] in items {
      assert kids[i] in kids;
      KidsAre(items, parent, kids[i]);
    }
    forall i, j | 0 <= i < j < |kids| ensures kids[i].id != kids[j].id {
      assert Before(ByPath, false, kids[i], kids[j]);
      if kids[i].id == kids[j].id {
        TableRow(items, kids[i]);
        TableRow(items, kids[j]);
        BeforeAsymmetric(ByPath, false, kids[i], kids[j]);
      }
    }
  }

  // ----- The recursive closure -----

  /** build(parent, depth, ancestors), with the shared counter passed along. */
  function Level(items: seq<Unit>, lim: Limits, parent: string, depth: nat, ancestors: set<string>, count: nat): Built
    requires depth <= lim.maxDepth + 1
    decreases lim.maxDepth + 1 - depth
  {
    if depth > lim.maxDepth then Built([], count, Kids(items, parent) != [])
    else Row(items, lim, Kids(items, parent), depth, ancestors, count)
  }

  /** The loop over the remaining children of one parent. */
  function Row(items: seq<Unit>, lim: Limits, kids: seq<Unit>, depth: nat, ancestors: set<string>, count: nat): Built
    requires depth <= lim.maxDepth
    decreases lim.maxDepth + 1 - depth, |kids|
  {
    if kids == [] then Built([], count, false)
    else if count >= lim.maxNodes then Built([], count, true)
    else if kids[0].id in ancestors then
      Row(items, lim, kids[1..], depth, ancestors, count).(truncated := true)
    else
      var sub := Level(items, lim, kids[0].id, depth + 1, ancestors + {kids[0].id}, count + 1);
      var rest := Row(items, lim, kids[1..], depth, ancestors, sub.count);
      Built([Node(kids[0], sub.nodes, Kids(items, kids[0].id) != [])] + rest.nodes, rest.count,
            sub.truncated || rest.truncated)
  }

  /** One turn of the loop. */
  lemma RowTurn(items: seq<Unit>, lim: Limits, kids: seq<Unit>, depth: nat, ancestors: set<string>, count: nat)
    requires depth <= lim.maxDepth && kids != []
    ensures var b := Row(items, lim, kids, depth, ancestors, count);
            && (count >= lim.maxNodes ==> b == Built([], count, true))
            && (count < lim.maxNodes && kids[0].id in ancestors ==>
                  b == Row(items, lim, kids[1..], depth, ancestors, count).(truncated := true))
            && (count < lim.maxNodes && kids[0].id !in ancestors ==>
                  var sub := Level(items, lim, kids[0].id, depth + 1, ancestors + {kids[0].id}, count + 1);
                  var rest := Row(items, lim, kids[1..], depth, ancestors, sub.count);
                  b == Built([Node(kids[0], sub.nodes, Kids(items, kids[0].id) != [])] + rest.nodes, rest.count,
                             sub.truncated || rest.truncated))
  {
  }

  lemma LevelTurn(items: seq<Unit>, lim: Limits, parent: string, depth: nat, ancestors: set<string>, count: nat)
    requires depth <= lim.maxDepth + 1
    ensures Level(items, lim, parent, depth, ancestors, count)
         == if depth > lim.maxDepth then Built([], count, Kids(items, parent) != [])
            else Row(items, lim, Kids(items, parent), depth, ancestors, count)
    ensures depth <= lim.maxDepth ==> Row(items, lim, [], depth, ancestors, count) == Built([], count, false)
  {
  }

  function Tree(items: seq<Unit>, lim: Limits, root: string): Built {
    Level(items, lim, root, 1, {}, 0)
  }

  // ----- Reading a tree -----

  function Flatten(nodes: seq<Node>): seq<Unit> {
    if nodes == [] then [] else [nodes[0].item] + Flatten(nodes[0].children) + Flatten(nodes[1..])
  }

  function Ids(nodes: seq<Node>): set<string> {
    if nodes == [] then {} else {nodes[0].item.id} + Ids(nodes[0].children) + Ids(nodes[1..])
  }

  function Depth(nodes: seq<Node>): nat {
    if nodes == [] then 0
    else
      var (here, there) := (1 + Depth(nodes[0].children), Depth(nodes[1..]));
      if here > there then here else there
  }

  /** No id repeats on the way from the root to any node. */
  predicate ChainsDistinct(nodes: seq<Node>, above: set<string>) {
    nodes == [] ||
    var n := nodes[0];
    n.item.id !in above && ChainsDistinct(n.children, above + {n.item.id}) && ChainsDistinct(nodes[1..], above)
  }

  predicate NoRepeats(s: seq<Unit>) {
    forall i, j | 0 <= i < j < |s| :: s[i].id != s[j].id
  }

  /** `x` hangs below `root` by one or more parent links inside the items. */
  ghost predicate Reachable(items: seq<Unit>, root: string, x: string) {
    exists n: nat :: n > 0 && Climbs(Table(items), x, n, root)
  }

  // ----- Bounds, on any input -----

  lemma {:induction false} LevelBounded(items: seq<Unit>, lim: Limits, parent: string, depth: nat,
                                        ancestors: set<string>, count: nat)
    requires depth <= lim.maxDepth + 1
    ensures var b := Level(items, lim, parent, depth, ancestors, count);
            && b.count == count + |Flatten(b.nodes)|
            && (b.count <= lim.maxNodes || b.count == count)
            && Depth(b.nodes) <= lim.maxDepth + 1 - depth
            && ChainsDistinct(b.nodes, ancestors)
    decreases lim.maxDepth + 1 - depth
  {
    if depth <= lim.maxDepth {
      RowBounded(items, lim, Kids(items, parent), depth, ancestors, count);
    }
  }

  lemma {:induction false} RowBounded(items: seq<Unit>, lim: Limits, kids: seq<Unit>, depth: nat,
                                      ancestors: set<string>, count: nat)
    requires depth <= lim.maxDepth
    ensures var b := Row(items, lim, kids, depth, ancestors, count);
            && b.count == count + |Flatten(b.nodes)|
            && (b.count <= lim.maxNodes || b.count == count)
            && Depth(b.nodes) <= lim.maxDepth + 1 - depth
            && ChainsDistinct(b.nodes, ancestors)
    decreases lim.maxDepth + 1 - depth, |kids|
  {
    if kids != [] && count < lim.maxNodes {
      if kids[0].id in ancestors {
        RowBounded(items, lim, kids[1..], depth, ancestors, count);
      } else {
        LevelBounded(items, lim, kids[0].id, depth + 1, ancestors + {kids[0].id}, count + 1);
        var sub := Level(items, lim, kids[0].id, depth + 1, ancestors + {kids[0].id}, count + 1);
        RowBounded(items, lim, kids[1..], depth, ancestors, sub.count);
        var rest := Row(items, lim, kids[1..], depth, ancestors, sub.count);
        var nodes := [Node(kids[0], sub.nodes, Kids(items, kids[0].id) != [])] + rest.nodes;
        assert nodes[1..] == rest.nodes;
      }
    }
  }

  /** For any items whatsoever: at most maxNodes nodes, at most maxDepth levels, and no id twice on
      a chain from the root. */
  lemma TreeBounded(items: seq<Unit>, lim: Limits, root: string)
    ensures var b := Tree(items, lim, root);
            |Flatten(b.nodes)| <= lim.maxNodes && Depth(b.nodes) <= lim.maxDepth && ChainsDistinct(b.nodes, {})
  {
    LevelBounded(items, lim, root, 1, {}, 0);
  }

  // ----- Who is in the tree -----

  lemma {:induction false} ChainsAvoid(nodes: seq<Node>, above: set<string>)
    requires ChainsDistinct(nodes, above)
    ensures Ids(nodes) !! above
  {
    if nodes != [] {
      ChainsAvoid(nodes[0].children, above + {nodes[0].item.id});
      ChainsAvoid(nodes[1..], above);
    }
  }

  lemma LevelAvoids(items: seq<Unit>, lim: Limits, parent: string, depth: nat, ancestors: set<string>, count: nat)
    requires depth <= lim.maxDepth + 1
    ensures Ids(Level(items, lim, parent, depth, ancestors, count).nodes) !! ancestors
  {
    LevelBounded(items, lim, parent, depth, ancestors, count);
    ChainsAvoid(Level(items, lim, parent, depth, ancestors, count).nodes, ancestors);
  }

  /** The subtree of the first kid and the trees of the others, when the first kid is taken. */
  predicate Takes(lim: Limits, kids: seq<Unit>, ancestors: set<string>, count: nat) {
    kids != [] && count < lim.maxNodes && kids[0].id !in ancestors
  }

  lemma RowUnfolds(items: seq<Unit>, lim: Limits, kids: seq<Unit>, depth: nat, ancestors: set<string>, count: nat)
    requires depth <= lim.maxDepth && Takes(lim, kids, ancestors, count)
    ensures var b := Row(items, lim, kids, depth, ancestors, count);
            var sub := Level(items, lim, kids[0].id, depth + 1, ancestors + {kids[0].id}, count + 1);
            var rest := Row(items, lim, kids[1..], depth, ancestors, sub.count);
            && Ids(b.nodes) == {kids[0].id} + Ids(sub.nodes) + Ids(rest.nodes)
            && Flatten(b.nodes) == [kids[0]] + Flatten(sub.nodes) + Flatten(rest.nodes)
            && b.truncated == (sub.truncated || rest.truncated)
  {
    var sub := Level(items, lim, kids[0].id, depth + 1, ancestors + {kids[0].id}, count + 1);
    var rest := Row(items, lim, kids[1..], depth, ancestors, sub.count);
    var nodes := [Node(kids[0], sub.nodes, Kids(items, kids[0].id) != [])] + rest.nodes;
    assert nodes[1..] == rest.nodes;
  }

  lemma RowSkips(items: seq<Unit>, lim: Limits, kids: seq<Unit>, depth: nat, ancestors: set<string>, count: nat)
    requires depth <= lim.maxDepth && !Takes(lim, kids, ancestors, count)
    ensures var b := Row(items, lim, kids, depth, ancestors, count);
            if kids == [] || count >= lim.maxNodes then
              Ids(b.nodes) == {} && Flatten(b.nodes) == [] && b.truncated == (kids != [])
            else
              var rest := Row(items, lim, kids[1..], depth, ancestors, count);
              kids[0].id in ancestors && b.nodes == rest.nodes && b.truncated
  {
  }

  lemma SiblingsTail(items: seq<Unit>, parent: string, kids: seq<Unit>)
    requires Siblings(items, parent, kids) && kids != []
    ensures Siblings(items, parent, kids[1..])
  {
    hide Before;
  }

  /** A node of a level climbs to its parent, through nodes of the level. */
  lemma {:induction false} LevelMember(items: seq<Unit>, lim: Limits, parent: string, depth: nat,
                                       ancestors: set<string>, count: nat, x: string) returns (n: nat)
    requires UniqueIds(items) && depth <= lim.maxDepth + 1
    requires x in Ids(Level(items, lim, parent, depth, ancestors, count).nodes)
    ensures n > 0 && x in Table(items) && Climbs(Table(items), x, n, parent)
    ensures n == 1 || Table(items)[x].parent in Ids(Level(items, lim, parent, depth, ancestors, count).nodes)
    decreases lim.maxDepth + 1 - depth
  {
    hide Siblings, UniqueIds, Row, Ids, Kids, Table;
    var kids := Kids(items, parent);
    KidsAreSiblings(items, parent);
    if depth > lim.maxDepth {
      EmptyIds();
    }
    var i, k := RowMember(items, lim, parent, kids, depth, ancestors, count, x);
    n := k + 1;
    KidClimbs(items, parent, kids, i);
    ClimbJoin(Table(items), x, k, kids[i].id, 1, parent);
  }

  lemma EmptyIds()
    ensures Ids([]) == {} && Flatten([]) == []
  {
  }

  lemma KidClimbs(items: seq<Unit>, parent: string, kids: seq<Unit>, i: nat)
    requires UniqueIds(items) && Siblings(items, parent, kids) && i < |kids|
    ensures kids[i].id in Table(items) && Table(items)[kids[i].id] == kids[i]
    ensures Table(items)[kids[i].id].parent == parent && Climbs(Table(items), kids[i].id, 1, parent)
  {
    TableRow(items, kids[i]);
    assert Climbs(Table(items), parent, 0, parent);
  }

  /** A node of a row climbs to one of the kids, through nodes of the row. */
  lemma {:induction false} RowMember(items: seq<Unit>, lim: Limits, parent: string, kids: seq<Unit>, depth: nat,
                                     ancestors: set<string>, count: nat, x: string) returns (i: nat, n: nat)
    requires UniqueIds(items) && depth <= lim.maxDepth && Siblings(items, parent, kids)
    requires x in Ids(Row(items, lim, kids, depth, ancestors, count).nodes)
    ensures i < |kids| && x in Table(items) && Climbs(Table(items), x, n, kids[i].id)
    ensures n == 0 || Table(items)[x].parent in Ids(Row(items, lim, kids, depth, ancestors, count).nodes)
    decreases lim.maxDepth + 1 - depth, |kids|
  {
    hide Siblings, UniqueIds, Row, Level, Ids, Kids, Table;
    if !Takes(lim, kids, ancestors, count) {
      RowSkips(items, lim, kids, depth, ancestors, count);
      SiblingsTail(items, parent, kids);
      i, n := RowMember(items, lim, parent, kids[1..], depth, ancestors, count, x);
      i := i + 1;
    } else {
      SiblingsTail(items, parent, kids);
      RowUnfolds(items, lim, kids, depth, ancestors, count);
      var sub := Level(items, lim, kids[0].id, depth + 1, ancestors + {kids[0].id}, count + 1);
      if x == kids[0].id {
        i, n := 0, 0;
        KidClimbs(items, parent, kids, 0);
      } else if x in Ids(sub.nodes) {
        i := 0;
        n := LevelMember(items, lim, kids[0].id, depth + 1, ancestors + {kids[0].id}, count + 1, x);
        if n == 1 {
          assert Climbs(Table(items), Table(items)[x].parent, 0, kids[0].id);
        }
      } else {
        i, n := RowMember(items, lim, parent, kids[1..], depth, ancestors, sub.count, x);
        i := i + 1;
      }
    }
  }

  /** The nodes of a row are exactly the units with those ids. */
  lemma {:induction false} LevelFlat(items: seq<Unit>, lim: Limits, parent: string, depth: nat,
                                     ancestors: set<string>, count: nat, u: Unit)
    requires UniqueIds(items) && depth <= lim.maxDepth + 1
    ensures var b := Level(items, lim, parent, depth, ancestors, count);
            u in Flatten(b.nodes) <==> u.id in Ids(b.nodes) && u in items
    decreases lim.maxDepth + 1 - depth
  {
    if depth <= lim.maxDepth {
      KidsAreSiblings(items, parent);
      RowFlat(items, lim, parent, Kids(items, parent), depth, ancestors, count, u);
    }
  }

  lemma {:induction false} RowFlat(items: seq<Unit>, lim: Limits, parent: string, kids: seq<Unit>, depth: nat,
                                   ancestors: set<string>, count: nat, u: Unit)
    requires UniqueIds(items) && depth <= lim.maxDepth && Siblings(items, parent, kids)
    ensures var b := Row(items, lim, kids, depth, ancestors, count);
            u in Flatten(b.nodes) <==> u.id in Ids(b.nodes) && u in items
    decreases lim.maxDepth + 1 - depth, |kids|
  {
    hide Siblings, UniqueIds, Row, Level, Ids, Flatten, Kids, Table;
    if !Takes(lim, kids, ancestors, count) {
      RowSkips(items, lim, kids, depth, ancestors, count);
      if kids != [] && count < lim.maxNodes {
        SiblingsTail(items, parent, kids);
        RowFlat(items, lim, parent, kids[1..], depth, ancestors, count, u);
      }
    } else {
      SiblingsTail(items, parent, kids);
      RowUnfolds(items, lim, kids, depth, ancestors, count);
      var sub := Level(items, lim, kids[0].id, depth + 1, ancestors + {kids[0].id}, count + 1);
      LevelFlat(items, lim, kids[0].id, depth + 1, ancestors + {kids[0].id}, count + 1, u);
      RowFlat(items, lim, parent, kids[1..], depth, ancestors, sub.count, u);
      KidClimbs(items, parent, kids, 0);
      TableRow(items, u);
      TableRow(items, kids[0]);
    }
  }

  // ----- Untruncated trees are complete -----

  lemma {:induction false} LevelComplete(items: seq<Unit>, lim: Limits, parent: string, depth: nat,
                                         ancestors: set<string>, count: nat, u: Unit)
    requires UniqueIds(items) && depth <= lim.maxDepth + 1 && u in items
    requires !Level(items, lim, parent, depth, ancestors, count).truncated
    requires u.parent == parent || u.parent in Ids(Level(items, lim, parent, depth, ancestors, count).nodes)
    ensures u.id in Ids(Level(items, lim, parent, depth, ancestors, count).nodes)
    decreases lim.maxDepth + 1 - depth
  {
    var kids := Kids(items, parent);
    KidsAre(items, parent, u);
    if depth <= lim.maxDepth {
      KidsAreSiblings(items, parent);
      RowComplete(items, lim, parent, kids, depth, ancestors, count, u);
    }
  }

  lemma {:induction false} RowComplete(items: seq<Unit>, lim: Limits, parent: string, kids: seq<Unit>, depth: nat,
                                       ancestors: set<string>, count: nat, u: Unit)
    requires UniqueIds(items) && depth <= lim.maxDepth && Siblings(items, parent, kids) && u in items
    requires !Row(items, lim, kids, depth, ancestors, count).truncated
    requires u in kids || u.parent in Ids(Row(items, lim, kids, depth, ancestors, count).nodes)
    ensures u.id in Ids(Row(items, lim, kids, depth, ancestors, count).nodes)
    decreases lim.maxDepth + 1 - depth, |kids|
  {
    hide Siblings;
    SiblingsTail(items, parent, kids);
    RowUnfolds(items, lim, kids, depth, ancestors, count);
    var sub := Level(items, lim, kids[0].id, depth + 1, ancestors + {kids[0].id}, count + 1);
    var rest := Row(items, lim, kids[1..], depth, ancestors, sub.count);
    if u.parent == kids[0].id || u.parent in Ids(sub.nodes) {
      LevelComplete(items, lim, kids[0].id, depth + 1, ancestors + {kids[0].id}, count + 1, u);
    } else if u != kids[0] {
      RowComplete(items, lim, parent, kids[1..], depth, ancestors, sub.count, u);
    }
  }

  /** In an untruncated row the common parent does not itself occur: else one of the kids would
      have met itself among its ancestors. */
  lemma {:induction false} RowOmitsParent(items: seq<Unit>, lim: Limits, parent: string, kids: seq<Unit>, depth: nat,
                                          ancestors: set<string>, count: nat)
    requires UniqueIds(items) && depth <= lim.maxDepth && Siblings(items, parent, kids)
    requires !Row(items, lim, kids, depth, ancestors, count).truncated
    ensures parent !in Ids(Row(items, lim, kids, depth, ancestors, count).nodes)
    decreases |kids|
  {
    if kids != [] {
      SiblingsTail(items, parent, kids);
      RowUnfolds(items, lim, kids, depth, ancestors, count);
      var k := kids[0];
      var sub := Level(items, lim, k.id, depth + 1, ancestors + {k.id}, count + 1);
      RowOmitsParent(items, lim, parent, kids[1..], depth, ancestors, sub.count);
      LevelAvoids(items, lim, k.id, depth + 1, ancestors + {k.id}, count + 1);
      if parent == k.id || parent in Ids(sub.nodes) {
        LevelComplete(items, lim, k.id, depth + 1, ancestors + {k.id}, count + 1, k);
      }
    }
  }
}
