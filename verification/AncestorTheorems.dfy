/** The path-derived search and the marking walk agree, and scope resolution returns a subtree. */
module AncestorTheorems {
  import opened Text
  import opened Tables
  import opened Forest
  import opened Listing
  import opened Trees
  import opened Ancestors

  // ----- A stored path spells out the ancestors -----

  /** `t` is `path` without its outer separators. */
  predicate Trimmed(path: string, t: string) {
    t != "" && t[0] != '/' && t[|t| - 1] != '/' && path == "/" + t + "/"
  }

  lemma TrimmedIsTrim(path: string, t: string)
    requires Trimmed(path, t)
    ensures Trim(path) == t
  {
    TrimEnds(t);
  }

  lemma TrimmedRoot(x: string)
    requires ValidId(x)
    ensures Trimmed("/" + x + "/", x)
  {
    assert x[0] in x && x[|x| - 1] in x;
  }

  lemma TrimmedSnoc(path: string, t: string, x: string)
    requires Trimmed(path, t) && ValidId(x)
    ensures Trimmed(path + x + "/", t + "/" + x)
  {
    var s := t + "/" + x;
    assert x[|x| - 1] in x && s[|s| - 1] == x[|x| - 1] && s[0] == t[0];
    assert ("/" + t + "/") + x + "/" == "/" + s + "/";
  }

  lemma {:induction false} TrimmedPath(units: Units, x: string)
    requires Linked(units) && x in units
    ensures Trimmed(units[x].path, Trim(units[x].path))
    ensures Trim(units[x].path)
         == if units[x].parent == "" then x
            else if units[x].parent in units then Trim(units[units[x].parent].path) + "/" + x else ""
    decreases |units[x].path|
  {
    hide Trim, Trimmed;
    assert LinkedAt(units, x);
    var p := units[x].parent;
    if p == "" {
      TrimmedRoot(x);
      TrimmedIsTrim(units[x].path, x);
    } else {
      TrimmedPath(units, p);
      var t := Trim(units[p].path);
      TrimmedSnoc(units[p].path, t, x);
      TrimmedIsTrim(units[x].path, t + "/" + x);
    }
  }

  lemma SegmentsStep(units: Units, x: string)
    requires Linked(units) && x in units
    ensures var p := units[x].parent;
            Segments(units[x].path) == if p in units then Segments(units[p].path) + [x] else [x]
  {
    TrimmedPath(units, x);
    assert LinkedAt(units, x);
    var p := units[x].parent;
    if p in units {
      assert LinkedAt(units, p);
      SplitSnoc(Trim(units[p].path), x);
    }
  }

  lemma {:induction false} SegmentsAreAncestors(units: Units, x: string, a: string)
    requires Linked(units) && x in units
    ensures a in Segments(units[x].path) <==> AncestorOrSelf(units, a, x)
    decreases |units[x].path|
  {
    hide Segments, Linked;
    SegmentsStep(units, x);
    var p := units[x].parent;
    AncestorStep(units, a, x);
    if p in units {
      ParentShorter(units, x);
      SegmentsAreAncestors(units, p, a);
    }
  }

  lemma ParentShorter(units: Units, x: string)
    requires Linked(units) && x in units && units[x].parent in units
    ensures |units[units[x].parent].path| < |units[x].path|
  {
    assert LinkedAt(units, x) && LinkedAt(units, units[x].parent);
  }

  lemma AncestorStep(units: Units, a: string, x: string)
    requires x in units
    ensures AncestorOrSelf(units, a, x)
       <==> a == x || (units[x].parent in units && AncestorOrSelf(units, a, units[x].parent))
  {
    var p := units[x].parent;
    if AncestorOrSelf(units, a, x) {
      var n: nat :| Climbs(units, x, n, a);
      if n > 0 {
        assert Climbs(units, p, n - 1, a);
        assert n == 1 ==> p == a;
      }
    }
    if a == x {
      assert Climbs(units, x, 0, a);
    }
    if p in units && AncestorOrSelf(units, a, p) {
      var n: nat :| Climbs(units, p, n, a);
      assert Climbs(units, x, n + 1, a);
    }
  }

  lemma {:induction false} NamedBy(hits: seq<Unit>, x: string)
    ensures x in NamedIds(hits) <==> x != "" && exists h :: h in hits && x in Segments(h.path)
  {
    hide Segments;
    if hits != [] {
      var before := hits[..|hits| - 1];
      var last := hits[|hits| - 1];
      NamedBy(before, x);
      assert hits == before + [last];
      assert forall h :: h in hits <==> h in before || h == last;
    }
  }

  // ----- Agreement -----

  /** Without truncation the search returns exactly the rows of the wanted status that are, by parent links, a match
      or an ancestor of one. */
  lemma {:induction false} SearchIsAncestors(rows: seq<Unit>, matches: Unit -> bool, status: string, limit: nat,
      items: seq<Unit>, u: Unit)
    requires UniqueIds(rows) && IsForest(Table(rows)) && SearchAnswer(rows, matches, status, limit, items, false)
    ensures u in items <==>
            u in rows && (status == "" || u.status == status)
            && exists h :: h in rows && (status == "" || h.status == status) && matches(h)
                           && AncestorOrSelf(Table(rows), u.id, h.id)
  {
    hide Segments, Table, Linked, UniqueIds, IsForest, Sort, Filter, Ordered, NamedIds, Hits;
    LinkedIsForest(Table(rows));
    var m := Table(rows);
    var hits := Hits(rows, matches, status);
    assert hits[..Min(|hits|, limit)] == hits;
    forall h ensures h in hits <==> h in rows && StatusOk(h, status) && matches(h) {
      HitsAre(rows, matches, status, h);
    }
    NamedBy(hits, u.id);
    forall h | h in hits ensures u.id in Segments(h.path) <==> AncestorOrSelf(m, u.id, h.id) {
      TableRow(rows, h);
      SegmentsAreAncestors(m, h.id, u.id);
    }
    TableRow(rows, u);
    if u in rows {
      NotEmpty(m, u.id);
      assert Climbs(m, u.id, 0, u.id);
    }
  }

  /** The hits a search works from: matches of the wanted status, distinct, the first `limit` of them in path order;
      any further match comes after all of them. */
  ghost predicate FirstHits(rows: seq<Unit>, matches: Unit -> bool, status: string, limit: nat, hits: seq<Unit>, truncated: bool) {
    && UniqueIds(hits) && |hits| <= limit
    && (forall h | h in hits :: h in rows && (status == "" || h.status == status) && matches(h))
    && (truncated <==> exists v :: v in rows && (status == "" || v.status == status) && matches(v) && v !in hits)
    && (truncated ==> |hits| == limit)
    && forall h, v | h in hits && v in rows && (status == "" || v.status == status) && matches(v) && v !in hits ::
         Less(h.path, v.path) || (h.path == v.path && Less(h.id, v.id))
  }

  /** With or without truncation: the search returns exactly the rows of the wanted status that are, by parent links, one
      of the first hits or an ancestor of one, each once and in path order. */
  lemma {:induction false} SearchReturns(rows: seq<Unit>, matches: Unit -> bool, status: string, limit: nat,
                                         items: seq<Unit>, truncated: bool)
    returns (hits: seq<Unit>)
    requires UniqueIds(rows) && IsForest(Table(rows)) && SearchAnswer(rows, matches, status, limit, items, truncated)
    ensures FirstHits(rows, matches, status, limit, hits, truncated)
    ensures forall u :: u in items <==>
              u in rows && (status == "" || u.status == status)
              && exists h :: h in hits && AncestorOrSelf(Table(rows), u.id, h.id)
    ensures UniqueIds(items) && InColumnOrder(ByPath, false, items)
  {
    hide Segments, Table, Linked, UniqueIds, IsForest, Sort, Filter, Ordered, NamedIds, Hits, FirstHits, InColumnOrder, Less;
    var all := Hits(rows, matches, status);
    var n := Min(|all|, limit);
    hits := all[..n];
    HitsAreRows(rows, matches, status, n);
    HitsComeFirst(rows, matches, status, limit);
    OrderedByColumn(ByPath, false, items);
    LinkedIsForest(Table(rows));
    forall u ensures u in items <==>
                     u in rows && (status == "" || u.status == status)
                     && exists h :: h in hits && AncestorOrSelf(Table(rows), u.id, h.id) {
      AncestorOfHit(rows, status, hits, u);
    }
  }

  lemma AncestorOfHit(rows: seq<Unit>, status: string, hits: seq<Unit>, u: Unit)
    requires UniqueIds(rows) && Linked(Table(rows)) && forall h | h in hits :: h in rows && StatusOk(h, status)
    ensures u in hits || (u in rows && StatusOk(u, status) && u.id in NamedIds(hits)) <==>
            u in rows && StatusOk(u, status) && exists h :: h in hits && AncestorOrSelf(Table(rows), u.id, h.id)
  {
    hide Segments, Table, Linked, UniqueIds, NamedIds;
    var m := Table(rows);
    NamedBy(hits, u.id);
    forall h | h in hits ensures u.id in Segments(h.path) <==> AncestorOrSelf(m, u.id, h.id) {
      TableRow(rows, h);
      SegmentsAreAncestors(m, h.id, u.id);
    }
    TableRow(rows, u);
    if u in rows {
      NotEmpty(m, u.id);
      assert Climbs(m, u.id, 0, u.id);
    }
  }

  lemma HitsComeFirst(rows: seq<Unit>, matches: Unit -> bool, status: string, limit: nat)
    requires UniqueIds(rows)
    ensures var all := Hits(rows, matches, status);
            FirstHits(rows, matches, status, limit, all[..Min(|all|, limit)], |all| > limit)
  {
    hide Filter, Sort, Hits, Less, UniqueIds;
    var all := Hits(rows, matches, status);
    var n := Min(|all|, limit);
    HitsAreRows(rows, matches, status, n);
    HitsAreRows(rows, matches, status, |all|);
    assert all[..|all|] == all;
    HitsOrdered(rows, matches, status);
    var hits := all[..n];
    forall h, v | h in hits && v in rows && (status == "" || v.status == status) && matches(v) && v !in hits
      ensures Less(h.path, v.path) || (h.path == v.path && Less(h.id, v.id))
    {
      HitsAre(rows, matches, status, v);
      var i :| 0 <= i < n && hits[i] == h;
      var j :| 0 <= j < |all| && all[j] == v;
      assert j >= n;
      assert Before(ByPath, false, all[i], all[j]);
    }
    if |all| > limit {
      var v := all[limit];
      HitsAre(rows, matches, status, v);
      assert v !in hits;
    } else {
      assert hits == all;
      forall v | v in rows && (status == "" || v.status == status) && matches(v) ensures v in hits {
        HitsAre(rows, matches, status, v);
      }
    }
  }

  lemma HitsOrdered(rows: seq<Unit>, matches: Unit -> bool, status: string)
    requires UniqueIds(rows)
    ensures Ordered(ByPath, false, Hits(rows, matches, status))
  {
    FilterUnique(rows, Passes(status, matches));
    SortOrdered(ByPath, false, Filter(rows, Passes(status, matches)));
  }

  lemma NotEmpty(units: Units, x: string)
    requires Linked(units) && x in units
    ensures x != ""
  {
    assert LinkedAt(units, x);
  }

  lemma HitsAre(rows: seq<Unit>, matches: Unit -> bool, status: string, h: Unit)
    ensures h in Hits(rows, matches, status) <==> h in rows && StatusOk(h, status) && matches(h)
  {
    SortSame(ByPath, false, Filter(rows, Passes(status, matches)), h);
    assert Passes(status, matches)(h) <==> StatusOk(h, status) && matches(h);
  }

  /** With no status filter and no truncation, on a tenant's rows in path order, the search and the marking walk
      return the same list: the matches and all their ancestors. */
  lemma {:induction false} SearchAgreesWithWalk(rows: seq<Unit>, matches: Unit -> bool, limit: nat, items: seq<Unit>)
    requires UniqueIds(rows) && Ordered(ByPath, false, rows) && IsForest(Table(rows))
    requires SearchAnswer(rows, matches, "", limit, items, false)
    ensures items == Filter(rows, IdIn(Closure(rows, matches)))
  {
    hide Table, UniqueIds, IsForest, Filter, Ordered;
    var walk := Filter(rows, IdIn(Closure(rows, matches)));
    FilterOrdered(ByPath, false, rows, IdIn(Closure(rows, matches)));
    LinkedIsForest(Table(rows));
    assert "" !in Table(rows) by { if "" in Table(rows) { NotEmpty(Table(rows), ""); } }
    forall u ensures u in items <==> u in walk {
      SearchIsAncestors(rows, matches, "", limit, items, u);
      assert IdIn(Closure(rows, matches))(u) <==> u.id in Closure(rows, matches);
      if u in rows { KeptIsAncestor(rows, matches, u); }
    }
    OrderedUnique(ByPath, false, items, walk);
  }

  lemma KeptIsAncestor(rows: seq<Unit>, matches: Unit -> bool, u: Unit)
    requires UniqueIds(rows) && u in rows && "" !in Table(rows)
    ensures u.id in Closure(rows, matches)
       <==> exists h :: h in rows && matches(h) && AncestorOrSelf(Table(rows), u.id, h.id)
  {
    hide Table, UniqueIds;
    TableRow(rows, u);
    IndexIsTable(rows);
    hide Index;
    if u.id in Closure(rows, matches) {
      var h, n: nat :| h in rows && matches(h) && Climbs(Table(rows), h.id, n, u.id);
      assert AncestorOrSelf(Table(rows), u.id, h.id);
    }
    if exists h :: h in rows && matches(h) && AncestorOrSelf(Table(rows), u.id, h.id) {
      var h :| h in rows && matches(h) && AncestorOrSelf(Table(rows), u.id, h.id);
      var n: nat :| Climbs(Table(rows), h.id, n, u.id);
    }
  }

  lemma IndexIsTable(rows: seq<Unit>)
    requires "" !in Table(rows)
    ensures Index(rows) == Table(rows)
  {
  }

  /** A climb inside some of the rows is a climb in all of them. */
  lemma {:induction false} ClimbSub(some: Units, all: Units, x: string, n: nat, a: string)
    requires (forall y | y in some :: y in all && all[y] == some[y]) && Climbs(some, x, n, a)
    ensures Climbs(all, x, n, a)
    decreases n
  {
    if n > 0 {
      ClimbSub(some, all, some[x].parent, n - 1, a);
    }
  }

  function OfStatus(status: string): Unit -> bool {
    (u: Unit) => StatusOk(u, status)
  }

  /** With a status filter the walk, which sees only the filtered items and stops at a gap, never returns
      a row that the search does not. */
  lemma {:induction false} WalkWithinSearch(rows: seq<Unit>, matches: Unit -> bool, status: string, limit: nat,
      items: seq<Unit>, u: Unit)
    requires UniqueIds(rows) && IsForest(Table(rows)) && SearchAnswer(rows, matches, status, limit, items, false)
    ensures var kept := Filter(rows, OfStatus(status)); u in kept && u.id in Closure(kept, matches) ==> u in items
  {
    hide Table, Index, UniqueIds, IsForest, Filter, SearchAnswer;
    var kept := Filter(rows, OfStatus(status));
    var (some, all) := (Index(kept), Table(rows));
    FilterUnique(rows, OfStatus(status));
    forall y | y in some ensures y in all && all[y] == some[y] {
      Lookup(kept, y);
      TableKeys(kept, y);
      TableRow(rows, some[y]);
    }
    if u in kept && u.id in Closure(kept, matches) {
      var h, n: nat :| h in kept && matches(h) && Climbs(some, h.id, n, u.id);
      assert OfStatus(status)(u) && OfStatus(status)(h);
      ClimbSub(some, all, h.id, n, u.id);
      TableRow(rows, u);
      assert AncestorOrSelf(all, u.id, h.id);
      SearchIsAncestors(rows, matches, status, limit, items, u);
    }
  }

  // ----- Scope resolution -----

  /** WHERE tenant_id = ? AND path LIKE ? AND status = 'active'. */
  function InScope(tenant: string, rootPath: string): Unit -> bool {
    (u: Unit) => u.tenant == tenant && Like(u.path, rootPath + "%") && u.status == "active"
  }

  datatype Scope = Scope(ids: seq<string>) | ScopeNotFound

  /** Exactly the active units at or below `root` by parent links, each once, in path order. */
  ghost predicate IsActiveSubtree(units: Units, root: string, ids: seq<string>) {
    && (forall x :: x in ids <==> x in units && units[x].status == "active" && AncestorOrSelf(units, root, x))
    && forall i, j | 0 <= i < j < |ids| ::
         ids[i] in units && ids[j] in units && Less(units[ids[i]].path, units[ids[j]].path)
  }

  /** ResolveOrganizationScope. On any rows it selects by path prefix; in a forest, for a primary unit of the
      membership's own tenant, that is the active part of the subtree of the primary unit. Without a primary unit
      the scope is empty. */
  method ResolveOrganizationScope(memberships: map<string, Membership>, rows: seq<Unit>, membershipId: string)
    returns (r: Scope)
    requires UniqueIds(rows)
    ensures if membershipId !in memberships then r == ScopeNotFound
            else
              var (root, tenant) := (memberships[membershipId].primaryUnit, memberships[membershipId].tenant);
              if root == "" then r == Scope([])
              else if root !in Table(rows) then r == ScopeNotFound
              else
                var selected := Sort(ByPath, false, Filter(rows, InScope(tenant, Table(rows)[root].path)));
                && r.Scope? && |r.ids| == |selected| && (forall i | 0 <= i < |r.ids| :: r.ids[i] == selected[i].id)
                && (IsForest(Table(rows)) && Table(rows)[root].tenant == tenant ==> IsActiveSubtree(Table(rows), root, r.ids))
  {
    hide Table, UniqueIds, IsForest, Sort, Filter, IsActiveSubtree;
    if membershipId !in memberships {
      return ScopeNotFound;
    }
    var membership := memberships[membershipId];
    if membership.primaryUnit == "" {
      return Scope([]);
    }
    var table := IndexById(rows);
    if membership.primaryUnit !in table {
      return ScopeNotFound;
    }
    var unit := table[membership.primaryUnit];
    var selected := Sort(ByPath, false, Filter(rows, InScope(membership.tenant, unit.path)));
    var ids := [];
    for i := 0 to |selected|
      invariant |ids| == i && forall j | 0 <= j < i :: ids[j] == selected[j].id
    {
      ids := ids + [selected[i].id];
    }
    if IsForest(table) && unit.tenant == membership.tenant {
      ScopeIsSubtree(rows, membership.tenant, membership.primaryUnit, selected, ids);
    }
    return Scope(ids);
  }

  lemma ScopeIsSubtree(rows: seq<Unit>, tenant: string, root: string, selected: seq<Unit>, ids: seq<string>)
    requires UniqueIds(rows) && IsForest(Table(rows)) && root in Table(rows) && Table(rows)[root].tenant == tenant
    requires selected == Sort(ByPath, false, Filter(rows, InScope(tenant, Table(rows)[root].path)))
    requires |ids| == |selected| && forall j | 0 <= j < |ids| :: ids[j] == selected[j].id
    ensures IsActiveSubtree(Table(rows), root, ids)
  {
    hide Table, UniqueIds, IsForest, Sort, Filter, Like, Less, AncestorOrSelf;
    var m := Table(rows);
    LinkedIsForest(m);
    forall u ensures u in selected <==> u in rows && u.status == "active" && AncestorOrSelf(m, root, u.id) {
      SelectedRow(rows, tenant, root, selected, u);
    }
    forall x ensures x in ids <==> x in m && m[x].status == "active" && AncestorOrSelf(m, root, x) {
      if x in ids {
        var j :| 0 <= j < |ids| && ids[j] == x;
        assert selected[j] in selected;
        TableRow(rows, selected[j]);
      }
      if x in m && m[x].status == "active" && AncestorOrSelf(m, root, x) {
        TableKeys(rows, x);
        assert m[x] in selected;
        var j :| 0 <= j < |selected| && selected[j] == m[x];
        assert ids[j] == x;
      }
    }
    FilterUnique(rows, InScope(tenant, m[root].path));
    SortOrdered(ByPath, false, Filter(rows, InScope(tenant, m[root].path)));
    forall i, j | 0 <= i < j < |ids| ensures ids[i] in m && ids[j] in m && Less(m[ids[i]].path, m[ids[j]].path) {
      assert selected[i] in selected && selected[j] in selected;
      TableRow(rows, selected[i]);
      TableRow(rows, selected[j]);
      PathOrder(m, ids[i], ids[j]);
    }
  }

  /** Two rows in order either have increasing paths or are the same row. */
  lemma PathOrder(m: Units, x: string, y: string)
    requires Linked(m) && x in m && y in m && Before(ByPath, false, m[x], m[y])
    ensures Less(m[x].path, m[y].path)
  {
    assert LinkedAt(m, x) && LinkedAt(m, y);
    if m[x].path == m[y].path {
      PathsDistinct(m, x, y);
      LessIrreflexive(x);
    }
  }

  lemma SelectedRow(rows: seq<Unit>, tenant: string, root: string, selected: seq<Unit>, u: Unit)
    requires UniqueIds(rows) && Linked(Table(rows)) && root in Table(rows) && Table(rows)[root].tenant == tenant
    requires selected == Sort(ByPath, false, Filter(rows, InScope(tenant, Table(rows)[root].path)))
    ensures u in selected <==> u in rows && u.status == "active" && AncestorOrSelf(Table(rows), root, u.id)
  {
    hide Table, UniqueIds, Sort, Filter, Like, Linked;
    var m := Table(rows);
    SortSame(ByPath, false, Filter(rows, InScope(tenant, m[root].path)), u);
    assert InScope(tenant, m[root].path)(u)
        <==> u.tenant == tenant && Like(u.path, m[root].path + "%") && u.status == "active";
    TableRow(rows, u);
    if u in rows {
      PathShape(m, root);
      LikePrefix(u.path, m[root].path);
      PrefixIsAncestor(m, root, u.id);
      if AncestorOrSelf(m, root, u.id) {
        var n: nat :| Climbs(m, u.id, n, root);
        ClimbShortens(m, u.id, n, root);
      }
    }
  }
}
