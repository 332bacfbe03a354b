/** How much a bounded tree must hold: its chains are exactly the chains of parent links within the limits, a smaller
    node budget cuts the pre-order list short, and the flag means that a limit was really exceeded. */
module TreeLimits {
  import opened Text
  import opened Tables
  import opened Forest
  import opened Listing
  import opened Trees
  import opened TreeTheorems

  // ----- Chains -----

  /** Ids leading down from `parent` by parent links, none of them repeated and none in `avoid`. */
  predicate Chain(m: Units, parent: string, avoid: set<string>, chain: seq<string>)
    decreases |chain|
  {
    && chain != []
    && chain[0] in m && m[chain[0]].parent == parent && chain[0] !in avoid
    && (|chain| == 1 || Chain(m, chain[0], avoid + {chain[0]}, chain[1..]))
  }

  /** The nodes nest along the chain. */
  predicate HasChain(nodes: seq<Node>, chain: seq<string>)
    decreases |chain|
  {
    chain != [] && exists i | 0 <= i < |nodes| :: ChainAt(nodes[i], chain)
  }

  predicate ChainAt(node: Node, chain: seq<string>)
    requires chain != []
    decreases |chain|, 0
  {
    node.item.id == chain[0] && (|chain| == 1 || HasChain(node.children, chain[1..]))
  }

  lemma HasChainCons(node: Node, rest: seq<Node>, chain: seq<string>)
    requires chain != []
    ensures HasChain([node] + rest, chain) <==> ChainAt(node, chain) || HasChain(rest, chain)
  {
    hide ChainAt;
    var nodes := [node] + rest;
    if HasChain(nodes, chain) {
      var i :| 0 <= i < |nodes| && ChainAt(nodes[i], chain);
      if i > 0 { assert rest[i - 1] == nodes[i]; }
    }
    if ChainAt(node, chain) { assert nodes[0] == node; }
    if HasChain(rest, chain) {
      var i :| 0 <= i < |rest| && ChainAt(rest[i], chain);
      assert nodes[i + 1] == rest[i];
    }
  }

  predicate AmongKids(kids: seq<Unit>, x: string) {
    exists i | 0 <= i < |kids| :: kids[i].id == x
  }

  /** The chains of a level are the chains of the links, cut at the depth limit, unless the node budget is spent. */
  lemma {:induction false} LevelChains(items: seq<Unit>, lim: Limits, parent: string, depth: nat, ancestors: set<string>,
                                       count: nat, chain: seq<string>)
    requires UniqueIds(items) && depth <= lim.maxDepth + 1 && chain != []
    ensures var b := Level(items, lim, parent, depth, ancestors, count);
            var fits := Chain(Table(items), parent, ancestors, chain) && |chain| <= lim.maxDepth + 1 - depth;
            && (HasChain(b.nodes, chain) ==> fits)
            && (fits ==> HasChain(b.nodes, chain) || b.count >= lim.maxNodes)
    decreases lim.maxDepth + 1 - depth
  {
    hide UniqueIds, Siblings, Row, Kids, Table, Chain;
    if depth <= lim.maxDepth {
      var kids := Kids(items, parent);
      KidsAreSiblings(items, parent);
      RowChains(items, lim, parent, kids, depth, ancestors, count, chain);
      if Chain(Table(items), parent, ancestors, chain) {
        FirstIsKid(items, parent, ancestors, chain);
      }
    }
  }

  lemma FirstIsKid(items: seq<Unit>, parent: string, avoid: set<string>, chain: seq<string>)
    requires Chain(Table(items), parent, avoid, chain)
    ensures AmongKids(Kids(items, parent), chain[0])
  {
    hide Kids, Table;
    TableKeys(items, chain[0]);
    var u := Table(items)[chain[0]];
    KidsAre(items, parent, u);
    var i :| 0 <= i < |Kids(items, parent)| && Kids(items, parent)[i] == u;
  }

  lemma {:induction false} RowChains(items: seq<Unit>, lim: Limits, parent: string, kids: seq<Unit>, depth: nat,
                                     ancestors: set<string>, count: nat, chain: seq<string>)
    requires UniqueIds(items) && depth <= lim.maxDepth && Siblings(items, parent, kids) && chain != []
    ensures var b := Row(items, lim, kids, depth, ancestors, count);
            var fits := Chain(Table(items), parent, ancestors, chain) && |chain| <= lim.maxDepth + 1 - depth;
            && (HasChain(b.nodes, chain) ==> fits && AmongKids(kids, chain[0]))
            && (fits && AmongKids(kids, chain[0]) ==> HasChain(b.nodes, chain) || b.count >= lim.maxNodes)
    decreases lim.maxDepth + 1 - depth, |kids|
  {
    hide UniqueIds, Siblings, Row, Level, Kids, Table, HasChain, ChainAt, Chain, AmongKids;
    if kids == [] {
      LevelTurn(items, lim, parent, depth, ancestors, count);
      NoChain(chain);
    } else {
      RowTurn(items, lim, kids, depth, ancestors, count);
      SiblingsTail(items, parent, kids);
      AmongCons(kids, chain[0]);
      if count >= lim.maxNodes {
        NoChain(chain);
      } else if kids[0].id in ancestors {
        RowChains(items, lim, parent, kids[1..], depth, ancestors, count, chain);
        AvoidsFirst(Table(items), parent, ancestors, chain);
      } else {
        TakenChains(items, lim, parent, kids, depth, ancestors, count, chain);
      }
    }
  }

  lemma NoChain(chain: seq<string>)
    ensures !HasChain([], chain) && !AmongKids([], if chain == [] then "" else chain[0])
  {
  }

  lemma AmongCons(kids: seq<Unit>, x: string)
    requires kids != []
    ensures AmongKids(kids, x) <==> kids[0].id == x || AmongKids(kids[1..], x)
  {
    var rest := kids[1..];
    assert forall i | 0 <= i < |rest| :: rest[i] == kids[i + 1];
    if AmongKids(kids, x) {
      var i :| 0 <= i < |kids| && kids[i].id == x;
      if i > 0 { assert rest[i - 1].id == x; }
    }
    if AmongKids(rest, x) {
      var i :| 0 <= i < |rest| && rest[i].id == x;
      assert kids[i + 1].id == x;
    }
  }

  lemma AvoidsFirst(m: Units, parent: string, avoid: set<string>, chain: seq<string>)
    ensures Chain(m, parent, avoid, chain) ==> chain[0] !in avoid
  {
  }

  /** The turn of the loop that takes the first kid. */
  lemma {:induction false} TakenChains(items: seq<Unit>, lim: Limits, parent: string, kids: seq<Unit>, depth: nat,
                                       ancestors: set<string>, count: nat, chain: seq<string>)
    requires UniqueIds(items) && depth <= lim.maxDepth && Siblings(items, parent, kids) && chain != []
    requires Takes(lim, kids, ancestors, count)
    ensures var b := Row(items, lim, kids, depth, ancestors, count);
            var fits := Chain(Table(items), parent, ancestors, chain) && |chain| <= lim.maxDepth + 1 - depth;
            && (HasChain(b.nodes, chain) ==> fits && AmongKids(kids, chain[0]))
            && (fits && AmongKids(kids, chain[0]) ==> HasChain(b.nodes, chain) || b.count >= lim.maxNodes)
    decreases lim.maxDepth + 1 - depth, |kids|, 0
  {
    hide UniqueIds, Siblings, Row, Level, Kids, Table, HasChain, AmongKids;
    var (k, m) := (kids[0], Table(items));
    var sub := Level(items, lim, k.id, depth + 1, ancestors + {k.id}, count + 1);
    var rest := Row(items, lim, kids[1..], depth, ancestors, sub.count);
    var node := Node(k, sub.nodes, Kids(items, k.id) != []);
    RowTurn(items, lim, kids, depth, ancestors, count);
    SiblingsTail(items, parent, kids);
    AmongCons(kids, chain[0]);
    KidClimbs(items, parent, kids, 0);
    HasChainCons(node, rest.nodes, chain);
    RowChains(items, lim, parent, kids[1..], depth, ancestors, sub.count, chain);
    RowBounded(items, lim, kids[1..], depth, ancestors, sub.count);
    if |chain| > 1 && chain[0] == k.id {
      LevelChains(items, lim, k.id, depth + 1, ancestors + {k.id}, count + 1, chain[1..]);
    }
  }

  /** Completeness up to the limits, on any items, cyclic ones included: the chains of the tree are chains of parent links
      without a repeated id and no longer than maxDepth; and every such chain is in the tree, or the node budget is spent. */
  lemma {:induction false} TreeChains(items: seq<Unit>, lim: Limits, root: string, chain: seq<string>)
    requires UniqueIds(items) && chain != []
    ensures var b := Tree(items, lim, root);
            var fits := Chain(Table(items), root, {}, chain) && |chain| <= lim.maxDepth;
            && (HasChain(b.nodes, chain) ==> fits)
            && (fits ==> HasChain(b.nodes, chain) || |Flatten(b.nodes)| == lim.maxNodes)
  {
    hide UniqueIds, Table, Level, HasChain, Chain, Flatten;
    LevelChains(items, lim, root, 1, {}, 0, chain);
    LevelBounded(items, lim, root, 1, {}, 0);
  }

  // ----- Units within the limits -----

  lemma {:induction false} ChainEnds(nodes: seq<Node>, chain: seq<string>)
    requires HasChain(nodes, chain)
    ensures chain[|chain| - 1] in Ids(nodes)
    decreases |chain|
  {
    hide Ids;
    var i :| 0 <= i < |nodes| && ChainAt(nodes[i], chain);
    NodeIds(nodes, i);
    if |chain| > 1 {
      ChainEnds(nodes[i].children, chain[1..]);
    }
  }

  lemma {:induction false} NodeIds(nodes: seq<Node>, i: nat)
    requires i < |nodes|
    ensures {nodes[i].item.id} + Ids(nodes[i].children) <= Ids(nodes)
  {
    if i > 0 {
      NodeIds(nodes[1..], i - 1);
    }
  }

  /** Every node lies at the end of a chain. */
  lemma {:induction false} IdChain(nodes: seq<Node>, x: string) returns (chain: seq<string>)
    requires x in Ids(nodes)
    ensures HasChain(nodes, chain) && chain[|chain| - 1] == x
  {
    var (node, rest) := (nodes[0], nodes[1..]);
    assert nodes == [node] + rest;
    if x == node.item.id {
      chain := [x];
      assert ChainAt(node, chain);
    } else if x in Ids(node.children) {
      var below := IdChain(node.children, x);
      chain := [node.item.id] + below;
      assert chain[1..] == below;
      assert ChainAt(node, chain);
    } else {
      chain := IdChain(rest, x);
    }
    HasChainCons(node, rest, chain);
  }

  lemma {:induction false} ChainClimbs(m: Units, parent: string, avoid: set<string>, chain: seq<string>)
    requires Chain(m, parent, avoid, chain)
    ensures chain[|chain| - 1] in m && Climbs(m, chain[|chain| - 1], |chain|, parent)
    decreases |chain|
  {
    assert Climbs(m, parent, 0, parent) && Climbs(m, chain[0], 1, parent);
    if |chain| > 1 {
      ChainClimbs(m, chain[0], avoid + {chain[0]}, chain[1..]);
      ClimbJoin(m, chain[|chain| - 1], |chain| - 1, chain[0], 1, parent);
    }
  }

  /** The last unit on a climb, just below its end. */
  lemma {:induction false} LastStep(m: Units, x: string, n: nat, root: string) returns (k: string)
    requires n > 0 && Climbs(m, x, n, root)
    ensures k in m && m[k].parent == root && Climbs(m, x, n - 1, k)
    decreases n
  {
    if n == 1 {
      k := x;
    } else {
      k := LastStep(m, m[x].parent, n - 1, root);
    }
  }

  /** On acyclic data every climb is a chain without repetition. */
  lemma {:induction false} ClimbChain(m: Units, x: string, n: nat, root: string, avoid: set<string>)
    returns (chain: seq<string>)
    requires Acyclic(m) && Above(m, root, avoid) && n > 0 && Climbs(m, x, n, root)
    ensures Chain(m, root, avoid, chain) && |chain| == n && chain[n - 1] == x
    decreases n
  {
    hide Acyclic, Above;
    var k := LastStep(m, x, n, root);
    NotAbove(m, root, avoid, k);
    if n == 1 {
      chain := [k];
    } else {
      AboveExtends(m, root, avoid, k);
      var below := ClimbChain(m, x, n - 1, k, avoid + {k});
      chain := [k] + below;
      assert chain[1..] == below;
    }
  }

  /** On any items: a unit whose climb repeats no id and is no longer than maxDepth is in the tree, unless the node
      budget is spent. */
  lemma {:induction false} TreeHoldsChain(items: seq<Unit>, lim: Limits, root: string, chain: seq<string>, u: Unit)
    requires UniqueIds(items) && u in items && Chain(Table(items), root, {}, chain) && chain[|chain| - 1] == u.id
    requires |chain| <= lim.maxDepth
    ensures var b := Tree(items, lim, root); u in Flatten(b.nodes) || |Flatten(b.nodes)| == lim.maxNodes
  {
    assert chain != [];
    hide UniqueIds, Table, Level, HasChain, Chain, Flatten, Ids;
    var b := Tree(items, lim, root);
    TreeChains(items, lim, root, chain);
    if HasChain(b.nodes, chain) {
      ChainEnds(b.nodes, chain);
      LevelFlat(items, lim, root, 1, {}, 0, u);
    }
  }

  /** On acyclic items: a unit at most maxDepth links below the root is in the tree, unless the node budget is spent. */
  lemma {:induction false} TreeHoldsDepth(items: seq<Unit>, lim: Limits, root: string, u: Unit, n: nat)
    requires UniqueIds(items) && Acyclic(Table(items)) && u in items
    requires 1 <= n <= lim.maxDepth && Climbs(Table(items), u.id, n, root)
    ensures var b := Tree(items, lim, root); u in Flatten(b.nodes) || |Flatten(b.nodes)| == lim.maxNodes
  {
    hide UniqueIds, Table, Level, Chain, Flatten, Acyclic, Tree;
    var chain := ClimbChain(Table(items), u.id, n, root, {});
    TreeHoldsChain(items, lim, root, chain, u);
  }

  // ----- What the flag means -----

  lemma ClimbOnce(m: Units, x: string, i: nat, j: nat, root: string)
    requires Acyclic(m) && Climbs(m, x, i, root) && Climbs(m, x, j, root)
    ensures i == j
  {
    hide Acyclic;
    var (a, b) := if i <= j then (i, j) else (j, i);
    if a < b {
      ClimbSplit(m, x, a, root, b - a, root);
      NoCycleAt(m, root, b - a);
    }
  }

  ghost function ReachableUnits(items: seq<Unit>, root: string): set<Unit> {
    set u | u in items && Reachable(items, root, u.id)
  }

  lemma {:induction false} DistinctUnits(s: seq<Unit>)
    requires NoRepeats(s)
    ensures |set u | u in s| == |s|
  {
    if s != [] {
      var (first, rest) := (s[0], s[1..]);
      DistinctUnits(rest);
      assert (set u | u in s) == (set u | u in rest) + {first};
    }
  }

  /** Some unit hangs more than maxDepth links below the root. */
  ghost predicate TooDeep(items: seq<Unit>, lim: Limits, root: string) {
    exists u, n: nat :: u in items && n > lim.maxDepth && Climbs(Table(items), u.id, n, root)
  }

  /** On acyclic items the flag is raised exactly when a limit is exceeded: some unit hangs deeper below the root than
      maxDepth, or more than maxNodes units hang below it. */
  lemma {:induction false} TruncatedIffOverLimits(items: seq<Unit>, lim: Limits, root: string)
    requires UniqueIds(items) && Acyclic(Table(items))
    ensures Tree(items, lim, root).truncated <==>
              TooDeep(items, lim, root) || |ReachableUnits(items, root)| > lim.maxNodes
  {
    hide UniqueIds, Table, Level, Flatten, Acyclic, Tree, NoRepeats, Reachable, TooDeep;
    var b := Tree(items, lim, root);
    var inside := set u | u in Flatten(b.nodes);
    var all := ReachableUnits(items, root);
    TruncatedIffMissing(items, lim, root);
    TreeExact(items, lim, root);
    TreeBounded(items, lim, root);
    DistinctUnits(Flatten(b.nodes));
    assert inside <= all;
    if b.truncated {
      var u :| u in items && Reachable(items, root, u.id) && u !in Flatten(b.nodes);
      MissingUnit(items, lim, root, u);
      assert inside + {u} <= all;
      Larger(inside + {u}, all);
    } else {
      assert all <= inside;
      Larger(all, inside);
      NothingTooDeep(items, lim, root);
    }
  }

  lemma Larger(a: set<Unit>, b: set<Unit>)
    requires a <= b
    ensures |a| <= |b|
  {
    assert b == a + (b - a);
  }

  lemma MissingUnit(items: seq<Unit>, lim: Limits, root: string, u: Unit)
    requires UniqueIds(items) && Acyclic(Table(items)) && u in items && Reachable(items, root, u.id)
    requires u !in Flatten(Tree(items, lim, root).nodes)
    ensures TooDeep(items, lim, root) || |Flatten(Tree(items, lim, root).nodes)| == lim.maxNodes
  {
    hide UniqueIds, Table, Flatten, Acyclic, Tree;
    var n: nat :| n > 0 && Climbs(Table(items), u.id, n, root);
    if n <= lim.maxDepth {
      TreeHoldsDepth(items, lim, root, u, n);
    }
  }

  lemma NothingTooDeep(items: seq<Unit>, lim: Limits, root: string)
    requires UniqueIds(items) && Acyclic(Table(items)) && !Tree(items, lim, root).truncated
    ensures !TooDeep(items, lim, root)
  {
    hide UniqueIds, Table, Level, Flatten, Acyclic, Ids, HasChain, Chain;
    if TooDeep(items, lim, root) {
      var u, n: nat :| u in items && n > lim.maxDepth && Climbs(Table(items), u.id, n, root);
      ReachableIncluded(items, lim, root, u.id, n);
      var chain := IdChain(Tree(items, lim, root).nodes, u.id);
      TreeChains(items, lim, root, chain);
      ChainClimbs(Table(items), root, {}, chain);
      ClimbOnce(Table(items), u.id, n, |chain|, root);
    }
  }

  // ----- The node budget -----

  /** A smaller node budget keeps the first nodes in pre-order, for any items. */
  lemma {:induction false} LevelPrefix(items: seq<Unit>, small: Limits, large: Limits, parent: string, depth: nat,
                                       ancestors: set<string>, count: nat)
    requires small.maxDepth == large.maxDepth && small.maxNodes <= large.maxNodes
    requires depth <= small.maxDepth + 1 && count <= small.maxNodes
    ensures var (a, b) := (Flatten(Level(items, small, parent, depth, ancestors, count).nodes),
                           Flatten(Level(items, large, parent, depth, ancestors, count).nodes));
            a == b[..Min(|b|, small.maxNodes - count)]
    decreases small.maxDepth + 1 - depth
  {
    if depth <= small.maxDepth {
      RowPrefix(items, small, large, Kids(items, parent), depth, ancestors, count);
    }
  }

  lemma {:induction false} RowPrefix(items: seq<Unit>, small: Limits, large: Limits, kids: seq<Unit>, depth: nat,
                                     ancestors: set<string>, count: nat)
    requires small.maxDepth == large.maxDepth && small.maxNodes <= large.maxNodes
    requires depth <= small.maxDepth && count <= small.maxNodes
    ensures var (a, b) := (Flatten(Row(items, small, kids, depth, ancestors, count).nodes),
                           Flatten(Row(items, large, kids, depth, ancestors, count).nodes));
            a == b[..Min(|b|, small.maxNodes - count)]
    decreases small.maxDepth + 1 - depth, |kids|
  {
    hide Row, Level, Kids, Flatten, Ids;
    if !Takes(small, kids, ancestors, count) {
      RowSkips(items, small, kids, depth, ancestors, count);
      if kids == [] {
        RowSkips(items, large, kids, depth, ancestors, count);
      } else if count < small.maxNodes {
        RowSkips(items, large, kids, depth, ancestors, count);
        RowPrefix(items, small, large, kids[1..], depth, ancestors, count);
      }
    } else {
      var (k, below) := (kids[0].id, ancestors + {kids[0].id});
      RowUnfolds(items, small, kids, depth, ancestors, count);
      RowUnfolds(items, large, kids, depth, ancestors, count);
      LevelPrefix(items, small, large, k, depth + 1, below, count + 1);
      LevelBounded(items, small, k, depth + 1, below, count + 1);
      LevelBounded(items, large, k, depth + 1, below, count + 1);
      var (s, l) := (Level(items, small, k, depth + 1, below, count + 1), Level(items, large, k, depth + 1, below, count + 1));
      if l.count <= small.maxNodes {
        RowPrefix(items, small, large, kids[1..], depth, ancestors, l.count);
      } else {
        RowSkips(items, small, kids[1..], depth, ancestors, s.count);
      }
    }
  }

  /** Whatever the items, the nodes of a tree are the first maxNodes, in pre-order, of the tree with any larger budget. */
  lemma {:induction false} TreeIsPreorderPrefix(items: seq<Unit>, depth: nat, small: nat, large: nat, root: string)
    requires small <= large
    ensures var (a, b) := (Flatten(Tree(items, Limits(depth, small), root).nodes),
                           Flatten(Tree(items, Limits(depth, large), root).nodes));
            a == b[..Min(|b|, small)]
  {
    LevelPrefix(items, Limits(depth, small), Limits(depth, large), root, 1, {}, 0);
  }

  // ----- The nodes themselves -----

  /** Every node is an item; siblings are in path order, ids breaking ties; and HasChildren says whether
      some item names the node as its parent. */
  predicate NodesRight(items: seq<Unit>, nodes: seq<Node>) {
    && (forall i, j | 0 <= i < j < |nodes| :: var (a, b) := (nodes[i].item, nodes[j].item);
          Less(a.path, b.path) || (a.path == b.path && Less(a.id, b.id)))
    && (forall i | 0 <= i < |nodes| ::
          && nodes[i].item in items
          && (nodes[i].hasChildren <==> exists c | c in items :: c.parent == nodes[i].item.id)
          && NodesRight(items, nodes[i].children))
  }

  predicate FromKids(nodes: seq<Node>, kids: seq<Unit>) {
    forall i | 0 <= i < |nodes| :: nodes[i].item in kids
  }

  lemma NodesRightCons(items: seq<Unit>, node: Node, rest: seq<Node>, kids: seq<Unit>)
    requires NodesRight(items, rest) && FromKids(rest, kids) && node.item in items && NodesRight(items, node.children)
    requires node.hasChildren <==> exists c | c in items :: c.parent == node.item.id
    requires forall k | k in kids :: Before(ByPath, false, node.item, k)
    ensures NodesRight(items, [node] + rest)
  {
    hide Less;
    var nodes := [node] + rest;
    assert forall i | 0 < i < |nodes| :: nodes[i] == rest[i - 1];
  }

  lemma HasKidsMeans(items: seq<Unit>, x: string)
    ensures Kids(items, x) != [] <==> exists c | c in items :: c.parent == x
  {
    hide Kids;
    var kids := Kids(items, x);
    if kids != [] {
      KidsAre(items, x, kids[0]);
    }
    if exists c | c in items :: c.parent == x {
      var c :| c in items && c.parent == x;
      KidsAre(items, x, c);
    }
  }

  lemma {:induction false} LevelNodes(items: seq<Unit>, lim: Limits, parent: string, depth: nat, ancestors: set<string>,
                                      count: nat)
    requires UniqueIds(items) && depth <= lim.maxDepth + 1
    ensures NodesRight(items, Level(items, lim, parent, depth, ancestors, count).nodes)
    decreases lim.maxDepth + 1 - depth
  {
    hide UniqueIds, Row, Kids, Siblings;
    if depth <= lim.maxDepth {
      KidsAreSiblings(items, parent);
      RowNodes(items, lim, parent, Kids(items, parent), depth, ancestors, count);
    }
  }

  lemma {:induction false} RowNodes(items: seq<Unit>, lim: Limits, parent: string, kids: seq<Unit>, depth: nat,
                                    ancestors: set<string>, count: nat)
    requires UniqueIds(items) && depth <= lim.maxDepth && Siblings(items, parent, kids)
    ensures var b := Row(items, lim, kids, depth, ancestors, count); NodesRight(items, b.nodes) && FromKids(b.nodes, kids)
    decreases lim.maxDepth + 1 - depth, |kids|
  {
    hide UniqueIds, Row, Level, Kids, NodesRight, Before;
    if kids == [] {
      LevelTurn(items, lim, parent, depth, ancestors, count);
      NoNodes(items);
    } else {
      RowTurn(items, lim, kids, depth, ancestors, count);
      if count >= lim.maxNodes {
        NoNodes(items);
      } else {
        SiblingsTail(items, parent, kids);
        if kids[0].id in ancestors {
          RowNodes(items, lim, parent, kids[1..], depth, ancestors, count);
        } else {
          var k := kids[0];
          var sub := Level(items, lim, k.id, depth + 1, ancestors + {k.id}, count + 1);
          var rest := Row(items, lim, kids[1..], depth, ancestors, sub.count);
          LevelNodes(items, lim, k.id, depth + 1, ancestors + {k.id}, count + 1);
          RowNodes(items, lim, parent, kids[1..], depth, ancestors, sub.count);
          HasKidsMeans(items, k.id);
          NodesRightCons(items, Node(k, sub.nodes, Kids(items, k.id) != []), rest.nodes, kids[1..]);
        }
      }
    }
  }

  lemma NoNodes(items: seq<Unit>)
    ensures NodesRight(items, [])
  {
  }

  /** For any items with distinct ids, every node of the tree is right in itself. */
  lemma {:induction false} TreeNodesRight(items: seq<Unit>, lim: Limits, root: string)
    requires UniqueIds(items)
    ensures NodesRight(items, Tree(items, lim, root).nodes)
  {
    LevelNodes(items, lim, root, 1, {}, 0);
  }

  // ----- The flag on any items -----

  predicate Holds(nodes: seq<Node>, u: Unit) {
    exists i | 0 <= i < |nodes| :: nodes[i].item == u
  }

  predicate Covers(nodes: seq<Node>, kids: seq<Unit>) {
    forall k | k in kids :: Holds(nodes, k)
  }

  /** Nothing is missing: every item with this parent has a node, and nothing is missing below any node. */
  predicate Full(items: seq<Unit>, parent: string, nodes: seq<Node>)
    decreases nodes, 1
  {
    (forall c | c in items && c.parent == parent :: Holds(nodes, c)) && FullBelow(items, nodes)
  }

  predicate FullBelow(items: seq<Unit>, nodes: seq<Node>)
    decreases nodes, 0
  {
    forall i | 0 <= i < |nodes| :: Full(items, nodes[i].item.id, nodes[i].children)
  }

  lemma FullCons(items: seq<Unit>, node: Node, rest: seq<Node>, kids: seq<Unit>)
    requires kids != [] && node.item == kids[0] && FromKids(rest, kids[1..]) && kids[0] !in kids[1..]
    ensures Covers([node] + rest, kids) <==> Covers(rest, kids[1..])
    ensures FullBelow(items, [node] + rest) <==> Full(items, node.item.id, node.children) && FullBelow(items, rest)
  {
    hide Full;
    var nodes := [node] + rest;
    assert nodes[0] == node && forall i | 0 < i < |nodes| :: nodes[i] == rest[i - 1];
    assert forall i | 0 <= i < |rest| :: rest[i] == nodes[i + 1];
    assert Holds(nodes, kids[0]);
    forall k ensures k != kids[0] ==> (Holds(nodes, k) <==> Holds(rest, k)) {
      if k != kids[0] && Holds(nodes, k) {
        var i :| 0 <= i < |nodes| && nodes[i].item == k;
        assert rest[i - 1].item == k;
      }
      if Holds(rest, k) {
        var i :| 0 <= i < |rest| && rest[i].item == k;
        assert nodes[i + 1].item == k;
      }
    }
    assert forall k :: k in kids <==> k == kids[0] || k in kids[1..];
  }

  lemma {:induction false} LevelFull(items: seq<Unit>, lim: Limits, parent: string, depth: nat, ancestors: set<string>,
                                     count: nat)
    requires UniqueIds(items) && depth <= lim.maxDepth + 1
    ensures var b := Level(items, lim, parent, depth, ancestors, count); !b.truncated <==> Full(items, parent, b.nodes)
    decreases lim.maxDepth + 1 - depth
  {
    hide UniqueIds, Row, Kids, Siblings;
    var kids := Kids(items, parent);
    forall c ensures c in kids <==> c in items && c.parent == parent { KidsAre(items, parent, c); }
    if depth <= lim.maxDepth {
      KidsAreSiblings(items, parent);
      RowFull(items, lim, parent, kids, depth, ancestors, count);
    } else if kids != [] {
      assert kids[0] in kids;
    }
  }

  lemma {:induction false} RowFull(items: seq<Unit>, lim: Limits, parent: string, kids: seq<Unit>, depth: nat,
                                   ancestors: set<string>, count: nat)
    requires UniqueIds(items) && depth <= lim.maxDepth && Siblings(items, parent, kids)
    ensures var b := Row(items, lim, kids, depth, ancestors, count);
            !b.truncated <==> Covers(b.nodes, kids) && FullBelow(items, b.nodes)
    decreases lim.maxDepth + 1 - depth, |kids|
  {
    hide UniqueIds, Row, Level, Kids, Before, Full, FullBelow, NodesRight;
    if kids == [] {
      LevelTurn(items, lim, parent, depth, ancestors, count);
      NothingBelow(items);
    } else {
      RowTurn(items, lim, kids, depth, ancestors, count);
      assert kids[0] in kids;
      if count < lim.maxNodes {
        SiblingsTail(items, parent, kids);
        assert kids[0] !in kids[1..];
        if kids[0].id in ancestors {
          RowNodes(items, lim, parent, kids[1..], depth, ancestors, count);
        } else {
          var k := kids[0];
          var sub := Level(items, lim, k.id, depth + 1, ancestors + {k.id}, count + 1);
          var rest := Row(items, lim, kids[1..], depth, ancestors, sub.count);
          LevelFull(items, lim, k.id, depth + 1, ancestors + {k.id}, count + 1);
          RowFull(items, lim, parent, kids[1..], depth, ancestors, sub.count);
          RowNodes(items, lim, parent, kids[1..], depth, ancestors, sub.count);
          FullCons(items, Node(k, sub.nodes, Kids(items, k.id) != []), rest.nodes, kids);
        }
      }
    }
  }

  lemma NothingBelow(items: seq<Unit>)
    ensures FullBelow(items, [])
  {
  }

  /** On any items with distinct ids, cyclic ones included, the flag is raised exactly when the root or some node
      lacks one of its children. */
  lemma {:induction false} TruncatedIffNotFull(items: seq<Unit>, lim: Limits, root: string)
    requires UniqueIds(items)
    ensures Tree(items, lim, root).truncated <==> !Full(items, root, Tree(items, lim, root).nodes)
  {
    hide Full;
    LevelFull(items, lim, root, 1, {}, 0);
  }
}
