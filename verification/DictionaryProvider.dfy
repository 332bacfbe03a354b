/** The dictionary provider end to end: listing a tenant's units, the tree request with its limits and
    its fast paths, and what all of this means in the states a run can reach. */
module DictionaryProvider {
  import opened Text
  import opened Tables
  import opened Forest
  import opened Listing
  import opened Trees
  import opened TreeTheorems
  import opened TreeBuilding
  import opened Ancestors
  import opened AncestorTheorems
  import Consistency
  import Runs
  import ForestRuns

  // ----- Listing a tenant -----

  /** SELECT ... WHERE tenant_id = ? ORDER BY path, id. */
  ghost predicate IsListing(units: Units, tenant: string, rows: seq<Unit>) {
    && Ordered(ByPath, false, rows)
    && forall u :: u in rows <==> u.id in units && units[u.id] == u && u.tenant == tenant
  }

  method ListOrganizationUnits(units: Units, tenant: string) returns (rows: seq<Unit>)
    requires tenant != "" && forall x | x in units :: units[x].id == x
    ensures IsListing(units, tenant, rows)
  {
    hide Ordered;
    var own := map x | x in units && units[x].tenant == tenant :: units[x];
    rows := Collect(own);
  }

  lemma ListingTable(units: Units, tenant: string, rows: seq<Unit>)
    requires IsListing(units, tenant, rows) && forall x | x in units :: units[x].id == x
    ensures UniqueIds(rows)
    ensures forall x :: x in Table(rows) <==> x in units && units[x].tenant == tenant
    ensures forall x | x in Table(rows) :: x in units && Table(rows)[x] == units[x]
  {
    hide Ordered, Table;
    OrderedUniqueIds(units, rows);
    forall x ensures x in Table(rows) <==> x in units && units[x].tenant == tenant {
      TableKeys(rows, x);
      if x in units && units[x].tenant == tenant { assert units[x] in rows; }
    }
    forall x | x in Table(rows) ensures x in units && Table(rows)[x] == units[x] {
      TableKeys(rows, x);
    }
  }

  /** Links never leave a tenant, so the units of one tenant of a forest are a forest. */
  lemma ListingIsForest(units: Units, tenant: string, rows: seq<Unit>)
    requires IsForest(units) && IsListing(units, tenant, rows)
    ensures UniqueIds(rows) && IsForest(Table(rows))
  {
    hide Table, IsListing, IsForest, UniqueIds;
    LinkedIsForest(units);
    forall x | x in units ensures units[x].id == x { assert LinkedAt(units, x); }
    ListingTable(units, tenant, rows);
    var own := Table(rows);
    forall x | x in own ensures LinkedAt(own, x) {
      assert LinkedAt(units, x);
    }
    LinkedIsForest(own);
  }

  // ----- The tree request -----

  datatype TreeResult = Nodes(nodes: seq<Node>, truncated: bool) | TreeRefused

  /** What each mode answers, given accepted limits. */
  ghost predicate TreeAnswer(rows: seq<Unit>, mode: Mode, parentId: string, matches: Unit -> bool, status: string,
                             lim: Limits, nodes: seq<Node>, truncated: bool)
  {
    match mode
    case Full => var b := Tree(Filter(rows, StatusIs(status)), lim, ""); nodes == b.nodes && truncated == b.truncated
    case Children =>
      var b := Tree(Filter(rows, StatusIs(status)), lim, parentId);
      && nodes == b.nodes
      && if lim.maxDepth == 1 then LazyAnswer(rows, parentId, status, lim.maxNodes, nodes, truncated) else truncated == b.truncated
    case SearchWithAncestors =>
      exists items, cut ::
        && SearchAnswer(rows, matches, status, lim.maxNodes, items, cut)
        && var b := Tree(items, lim, ""); nodes == b.nodes && truncated == (cut || b.truncated)
  }

  /** Tree: defaults, limits, and the three modes, two of them served by their own queries. Whatever the
      mode and the data, the answer stays within the limits and repeats no id on a chain. */
  method AnswerTree(rows: seq<Unit>, mode: Mode, parentId: string, matches: Unit -> bool, status: string,
                    maxDepth: int, maxNodes: int) returns (r: TreeResult)
    requires UniqueIds(rows) && forall i | 0 <= i < |rows| :: rows[i].tenant != ""
    ensures var depth := if maxDepth == 0 then 8 else maxDepth;
            var count := if maxNodes == 0 then 1000 else maxNodes;
            if depth < 1 || depth > 32 || count < 1 || count > 5000 then r == TreeRefused
            else
              && r.Nodes?
              && TreeAnswer(rows, mode, parentId, matches, status, Limits(depth, count), r.nodes, r.truncated)
              && |Flatten(r.nodes)| <= count && Depth(r.nodes) <= depth && ChainsDistinct(r.nodes, {})
              && forall u | u in Flatten(r.nodes) :: u in rows && (status == "" || u.status == status)
  {
    hide UniqueIds, Filter, SearchAnswer, LazyAnswer, Tree, Flatten, Depth, ChainsDistinct, SomeHasChildren;
    var depth := if maxDepth == 0 then 8 else maxDepth;
    var count := if maxNodes == 0 then 1000 else maxNodes;
    if depth < 1 || depth > 32 || count < 1 || count > 5000 {
      return TreeRefused;
    }
    var lim := Limits(depth, count);
    if mode == Children && depth == 1 {
      var nodes, truncated := ListOrganizationChildren(rows, parentId, status, count);
      FastPathAgrees(rows, parentId, status, count, nodes, truncated);
      TreeBounded(Filter(rows, StatusIs(status)), lim, parentId);
      FilteredTree(rows, status, lim, parentId);
      return Nodes(nodes, truncated);
    }
    if mode == SearchWithAncestors {
      var items, cut := Ancestors.SearchWithAncestors(rows, matches, status, count);
      var nodes, truncated := BuildOrganizationTree(items, mode, parentId, lim);
      TreeBounded(items, lim, "");
      SearchedTree(rows, matches, status, count, items, cut, lim);
      return Nodes(nodes, cut || truncated);
    }
    var items := Filter(rows, StatusIs(status));
    var nodes, truncated := BuildOrganizationTree(items, mode, parentId, lim);
    TreeBounded(items, lim, if mode == Children then parentId else "");
    FilteredTree(rows, status, lim, if mode == Children then parentId else "");
    return Nodes(nodes, truncated);
  }

  lemma FilteredTree(rows: seq<Unit>, status: string, lim: Limits, root: string)
    requires UniqueIds(rows)
    ensures forall u | u in Flatten(Tree(Filter(rows, StatusIs(status)), lim, root).nodes) ::
              u in rows && (status == "" || u.status == status)
  {
    hide Filter, Tree, Flatten, UniqueIds;
    FilterUnique(rows, StatusIs(status));
    TreeExact(Filter(rows, StatusIs(status)), lim, root);
  }

  lemma SearchedTree(rows: seq<Unit>, matches: Unit -> bool, status: string, limit: nat, items: seq<Unit>, cut: bool,
                     lim: Limits)
    requires UniqueIds(rows) && SearchAnswer(rows, matches, status, limit, items, cut)
    ensures forall u | u in Flatten(Tree(items, lim, "").nodes) :: u in rows && (status == "" || u.status == status)
  {
    hide Filter, Tree, Flatten, UniqueIds, Hits, NamedIds, Ordered;
    TreeExact(items, lim, "");
    var all := Hits(rows, matches, status);
    HitsAreRows(rows, matches, status, Min(|all|, limit));
  }

  // ----- In the states of a run -----

  /** In every state of a run in which no unit write was overtaken, for every tenant: an untruncated full tree read
      parents first is the tenant's listing, and an untruncated search returns what the walk over parent
      links returns. */
  lemma {:induction false} RunTreesAndSearches(steps: seq<Runs.Step>, moment: nat, tenant: string, rows: seq<Unit>, lim: Limits,
                            matches: Unit -> bool, items: seq<Unit>)
    requires ForestRuns.NoneOvertaken(steps) && moment <= |steps|
    requires IsListing(Runs.Execute(steps)[moment].units, tenant, rows)
    ensures !Tree(rows, lim, "").truncated ==> Flatten(Tree(rows, lim, "").nodes) == rows
    ensures SearchAnswer(rows, matches, "", lim.maxNodes, items, false) ==>
              items == Filter(rows, IdIn(Closure(rows, matches)))
  {
    hide Table, IsForest, UniqueIds, Runs.Execute, ForestRuns.NoneOvertaken, SearchAnswer, Tree, Flatten, Filter, Ordered, Sort;
    ForestRuns.RunForestIff(steps);
    var units := Runs.Execute(steps)[moment].units;
    ListingIsForest(units, tenant, rows);
    if !Tree(rows, lim, "").truncated {
      TreeOrderIsPathOrder(rows, lim);
      SortIsTheSort(ByPath, false, rows, rows);
    }
    if SearchAnswer(rows, matches, "", lim.maxNodes, items, false) {
      SearchAgreesWithWalk(rows, matches, lim.maxNodes, items);
    }
  }

  /** In every such state the scope of a membership with a primary unit, selected by path prefix, is the active
      part of that unit's subtree by parent links. */
  lemma {:induction false} RunScopes(steps: seq<Runs.Step>, moment: nat, rows: seq<Unit>, x: string, ids: seq<string>)
    requires ForestRuns.NoneOvertaken(steps) && moment <= |steps|
    requires UniqueIds(rows) && Table(rows) == Runs.Execute(steps)[moment].units
    requires x in Runs.Execute(steps)[moment].memberships && Runs.Execute(steps)[moment].memberships[x].primaryUnit != ""
    ensures var membership := Runs.Execute(steps)[moment].memberships[x];
            var root := membership.primaryUnit;
            && root in Table(rows)
            && var selected := Sort(ByPath, false, Filter(rows, InScope(membership.tenant, Table(rows)[root].path)));
               |ids| == |selected| && (forall i | 0 <= i < |ids| :: ids[i] == selected[i].id)
               ==> IsActiveSubtree(Table(rows), root, ids)
  {
    hide Table, UniqueIds, IsForest, Runs.Execute, ForestRuns.NoneOvertaken, IsActiveSubtree, Sort, Filter;
    ForestRuns.RunForestIff(steps);
    Consistency.RunConsistent(steps);
    var db := Runs.Execute(steps)[moment];
    assert Consistency.Consistent(db);
    var membership := db.memberships[x];
    var root := membership.primaryUnit;
    var selected := Sort(ByPath, false, Filter(rows, InScope(membership.tenant, Table(rows)[root].path)));
    if |ids| == |selected| && forall i | 0 <= i < |ids| :: ids[i] == selected[i].id {
      ScopeIsSubtree(rows, membership.tenant, root, selected, ids);
    }
  }
}
