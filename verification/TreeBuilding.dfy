/** The tree builder as the provider runs it: a children index, a shared counter and flag,
    and a recursive method; and the lazy-children query that replaces it at depth one. */
module TreeBuilding {
  import opened Tables
  import opened Forest
  import opened Listing
  import opened Trees

  class TreeBuilder {
    const lim: Limits
    ghost const items: seq<Unit>
    var children: map<string, seq<Unit>>
    var count: nat
    var truncated: bool

    /** The index holds the sorted children of every parent that has any. */
    ghost predicate Valid()
      reads this`children
    {
      forall p {:trigger Kids(items, p)} :: Kids(items, p) == Lookup(children, p)
    }

    constructor (items: seq<Unit>, lim: Limits)
      ensures Valid() && this.items == items && this.lim == lim && count == 0 && !truncated
    {
      this.items, this.lim := items, lim;
      count, truncated := 0, false;
      var grouped := GroupByParent(items);
      var sorted := SortGroups(grouped);
      children := sorted;
      new;
      hide Sort, Filter;
      forall p ensures Kids(items, p) == Lookup(children, p) {
        assert Lookup(grouped, p) == Filter(items, HasParent(p));
        if p !in grouped { SortNothing(); }
      }
    }

    /** The slice of children of one parent. */
    function Below(parent: string): (kids: seq<Unit>)
      requires Valid()
      reads this`children
      ensures kids == Kids(items, parent)
    {
      assert Kids(items, parent) == Lookup(children, parent);
      Lookup(children, parent)
    }

    /** The recursive closure: the nodes below `parent`, the counter advanced, the flag raised if anything was cut. */
    method Build(parent: string, depth: nat, ancestors: set<string>) returns (nodes: seq<Node>)
      requires Valid() && depth <= lim.maxDepth + 1
      modifies this`count, this`truncated
      ensures Valid()
      ensures var b := Level(items, lim, parent, depth, ancestors, old(count));
              nodes == b.nodes && count == b.count && truncated == (old(truncated) || b.truncated)
      decreases lim.maxDepth + 1 - depth
    {
      hide Valid, Below, Kids, Row, Level;
      LevelTurn(items, lim, parent, depth, ancestors, count);
      var kids := Below(parent);
      nodes := [];
      if depth > lim.maxDepth {
        if |kids| > 0 {
          truncated := true;
        }
        return;
      }
      ghost var whole := Row(items, lim, kids, depth, ancestors, count);
      var i := 0;
      assert kids[0..] == kids;
      while i < |kids|
        invariant 0 <= i <= |kids| && Valid()
        invariant Completes(whole, old(truncated), nodes, truncated, Row(items, lim, kids[i..], depth, ancestors, count))
      {
        var item := kids[i];
        assert kids[i..][0] == item && kids[i..][1..] == kids[i + 1..];
        RowTurn(items, lim, kids[i..], depth, ancestors, count);
        if count >= lim.maxNodes {
          truncated := true;
          break;
        }
        i := i + 1;
        if item.id in ancestors {
          truncated := true;
          continue;
        }
        count := count + 1;
        var below := Build(item.id, depth + 1, ancestors + {item.id});
        var node := Node(item, below, |Below(item.id)| > 0);
        Reassociate(nodes, node, Row(items, lim, kids[i..], depth, ancestors, count).nodes);
        nodes := nodes + [node];
      }
      if i == |kids| {
        assert kids[i..] == [];
        LevelTurn(items, lim, parent, depth, ancestors, count);
      }
    }
  }

  /** What the loop has built so far, followed by what its remaining turns build, is the whole row. */
  predicate Completes(whole: Built, was: bool, nodes: seq<Node>, truncated: bool, rest: Built) {
    && whole.nodes == nodes + rest.nodes
    && whole.count == rest.count
    && (was || whole.truncated) == (truncated || rest.truncated)
  }

  lemma Reassociate(nodes: seq<Node>, node: Node, rest: seq<Node>)
    ensures nodes + ([node] + rest) == nodes + [node] + rest
  {
  }

  /** Indexing a Go map of slices: a missing key reads as the empty slice. */
  function Lookup(index: map<string, seq<Unit>>, key: string): seq<Unit> {
    if key in index then index[key] else []
  }

  lemma SortNothing()
    ensures Sort(ByPath, false, []) == []
  {
  }

  /** The first loop: append every item to the slice of its parent. */
  method GroupByParent(items: seq<Unit>) returns (index: map<string, seq<Unit>>)
    ensures forall p {:trigger Lookup(index, p)} :: Lookup(index, p) == Filter(items, HasParent(p))
  {
    index := map[];
    for i := 0 to |items|
      invariant forall p {:trigger Lookup(index, p)} :: Lookup(index, p) == Filter(items[..i], HasParent(p))
    {
      ghost var before := index;
      var parent := items[i].parent;
      index := index[parent := Lookup(index, parent) + [items[i]]];
      assert items[..i + 1][..i] == items[..i];
      forall p ensures Lookup(index, p) == Filter(items[..i + 1], HasParent(p)) {
        assert Lookup(before, p) == Filter(items[..i], HasParent(p));
      }
    }
    assert items[..|items|] == items;
  }

  /** The second loop: sort every slice, in whatever order the keys come. */
  method SortGroups(grouped: map<string, seq<Unit>>) returns (index: map<string, seq<Unit>>)
    ensures index.Keys == grouped.Keys && forall p | p in grouped :: index[p] == Sort(ByPath, false, grouped[p])
  {
    hide Sort;
    index := grouped;
    var keys := index.Keys;
    while keys != {}
      invariant keys <= grouped.Keys && index.Keys == grouped.Keys
      invariant forall p | p in grouped :: index[p] == if p in keys then grouped[p] else Sort(ByPath, false, grouped[p])
      decreases keys
    {
      var key :| key in keys;
      index := index[key := Sort(ByPath, false, index[key])];
      keys := keys - {key};
    }
  }

  datatype Mode = Full | Children | SearchWithAncestors

  /** buildOrganizationTree computes the specified tree; only children mode starts below a given parent. */
  method BuildOrganizationTree(items: seq<Unit>, mode: Mode, parentId: string, lim: Limits)
    returns (roots: seq<Node>, truncated: bool)
    ensures var b := Tree(items, lim, if mode == Children then parentId else "");
            roots == b.nodes && truncated == b.truncated
  {
    var builder := new TreeBuilder(items, lim);
    var root := if mode == Children then parentId else "";
    roots := builder.Build(root, 1, {});
    truncated := builder.truncated;
  }

  // ----- The lazy-children query -----

  function StatusIs(status: string): Unit -> bool {
    (u: Unit) => status == "" || u.status == status
  }

  /** EXISTS (SELECT 1 ... WHERE child.parent_id = x AND child.status = status). */
  predicate HasChild(rows: seq<Unit>, x: string, status: string) {
    exists c | c in rows :: c.parent == x && (status == "" || c.status == status)
  }

  /** The answer of the query on the rows of one tenant: the selected rows up to the limit, each with its EXISTS
      column, and whether there were more. */
  predicate LazyAnswer(rows: seq<Unit>, parentId: string, status: string, limit: nat, nodes: seq<Node>, truncated: bool) {
    var kids := Kids(Filter(rows, StatusIs(status)), parentId);
    && truncated == (|kids| > limit)
    && |nodes| == Min(|kids|, limit)
    && forall i | 0 <= i < |nodes| :: nodes[i] == Node(kids[i], [], HasChild(rows, kids[i].id, status))
  }

  /** ListOrganizationChildren: one extra row is fetched to see whether more exist. */
  method ListOrganizationChildren(rows: seq<Unit>, parentId: string, status: string, limit: nat)
    returns (nodes: seq<Node>, truncated: bool)
    ensures LazyAnswer(rows, parentId, status, limit, nodes, truncated)
  {
    hide Kids, HasChild, Filter;
    var selected := Kids(Filter(rows, StatusIs(status)), parentId);
    var fetched := selected[..Min(|selected|, limit + 1)];
    truncated := |fetched| > limit;
    if truncated {
      fetched := fetched[..limit];
    }
    nodes := [];
    for i := 0 to |fetched|
      invariant |nodes| == i
      invariant forall j | 0 <= j < i :: nodes[j] == Node(fetched[j], [], HasChild(rows, fetched[j].id, status))
    {
      nodes := nodes + [Node(fetched[i], [], HasChild(rows, fetched[i].id, status))];
    }
  }

  predicate SomeHasChildren(nodes: seq<Node>) {
    nodes != [] && (nodes[0].hasChildren || SomeHasChildren(nodes[1..]))
  }

  /** What the general builder yields for a row at the deepest level. */
  lemma {:induction false} DeepestRow(items: seq<Unit>, lim: Limits, kids: seq<Unit>, count: nat)
    requires lim.maxDepth == 1 && count <= lim.maxNodes
    ensures var b := Row(items, lim, kids, 1, {}, count);
            var taken := Min(|kids|, lim.maxNodes - count);
            && |b.nodes| == taken
            && (forall i | 0 <= i < taken :: b.nodes[i] == Node(kids[i], [], Kids(items, kids[i].id) != []))
            && (b.truncated <==> |kids| > taken || SomeHasChildren(b.nodes))
  {
    hide Kids, Row, Level;
    if kids == [] {
      LevelTurn(items, lim, "", 1, {}, count);
    } else {
      RowTurn(items, lim, kids, 1, {}, count);
      if count < lim.maxNodes {
        LevelTurn(items, lim, kids[0].id, 2, {} + {kids[0].id}, count + 1);
        DeepestRow(items, lim, kids[1..], count + 1);
        var rest := Row(items, lim, kids[1..], 1, {}, count + 1);
        var nodes := [Node(kids[0], [], Kids(items, kids[0].id) != [])] + rest.nodes;
        assert nodes[1..] == rest.nodes;
      }
    }
  }

  /** The fast path agrees with the general builder at depth one, for any status filter: same nodes in the same
      order with the same HasChildren. The builder's flag is the fast path's flag, or that some returned
      node has children. */
  lemma {:induction false} FastPathAgrees(rows: seq<Unit>, parentId: string, status: string, limit: nat,
      nodes: seq<Node>, truncated: bool)
    requires LazyAnswer(rows, parentId, status, limit, nodes, truncated)
    ensures var b := Tree(Filter(rows, StatusIs(status)), Limits(1, limit), parentId);
            nodes == b.nodes && (b.truncated <==> truncated || SomeHasChildren(nodes))
  {
    hide Kids, HasChild, Row, Filter, SomeHasChildren;
    var items := Filter(rows, StatusIs(status));
    var kids := Kids(items, parentId);
    DeepestRow(items, Limits(1, limit), kids, 0);
    LevelTurn(items, Limits(1, limit), parentId, 1, {}, 0);
    forall i | 0 <= i < |nodes| ensures nodes[i] == Node(kids[i], [], Kids(items, kids[i].id) != []) {
      HasKids(rows, status, kids[i].id);
    }
  }

  lemma HasKids(rows: seq<Unit>, status: string, x: string)
    ensures Kids(Filter(rows, StatusIs(status)), x) != [] <==> HasChild(rows, x, status)
  {
    var items := Filter(rows, StatusIs(status));
    var kids := Kids(items, x);
    if kids != [] {
      KidsAre(items, x, kids[0]);
      assert StatusIs(status)(kids[0]);
    }
    if HasChild(rows, x, status) {
      var c :| c in rows && c.parent == x && (status == "" || c.status == status);
      assert StatusIs(status)(c);
      KidsAre(items, x, c);
    }
  }
}
