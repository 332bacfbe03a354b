/** Search with ancestors, twice: the marking walk over parent links, and the query that reads
    the ancestors off the stored paths. */
module Ancestors {
  import opened Text
  import opened Tables
  import opened Forest
  import opened Listing
  import opened Trees

  // ----- The closure both are meant to return -----

  /** The items by id. The empty id stands for "none" and names nothing. */
  function Index(items: seq<Unit>): Units {
    Table(items) - {""}
  }

  lemma NoEmptyId(items: seq<Unit>)
    ensures "" !in Index(items)
  {
  }

  lemma IndexRow(items: seq<Unit>, u: Unit)
    requires UniqueIds(items)
    ensures u in items && u.id != "" <==> u.id in Index(items) && Index(items)[u.id] == u
  {
    TableRow(items, u);
  }

  /** `x` is an item that some match climbs to. */
  ghost predicate Kept(items: seq<Unit>, matches: Unit -> bool, x: string) {
    x in Index(items) && exists u, n: nat :: u in items && matches(u) && Climbs(Index(items), u.id, n, x)
  }

  ghost function Closure(items: seq<Unit>, matches: Unit -> bool): set<string> {
    set x | x in Index(items).Keys && Kept(items, matches, x)
  }

  /** Contains the ids of all matches and, with an item, its parent if that is an item. */
  predicate Closed(items: seq<Unit>, matches: Unit -> bool, keep: set<string>) {
    && (forall i | 0 <= i < |items| && matches(items[i]) && items[i].id != "" :: items[i].id in keep)
    && (forall x | x in keep && x in Index(items) && Index(items)[x].parent in Index(items) :: Index(items)[x].parent in keep)
  }

  lemma {:induction false} ClosedClimb(items: seq<Unit>, matches: Unit -> bool, keep: set<string>, x: string, n: nat, a: string)
    requires Closed(items, matches, keep) && x in keep && a in Index(items) && Climbs(Index(items), x, n, a)
    ensures a in keep
    decreases n
  {
    hide Index;
    if n > 0 {
      var p := Index(items)[x].parent;
      assert p in Index(items) by { if n == 1 { assert p == a; } }
      ClosedClimb(items, matches, keep, p, n - 1, a);
    }
  }

  /** The closure is the least set that contains the matches and is closed under parents within the items. */
  lemma ClosureIsLeast(items: seq<Unit>, matches: Unit -> bool)
    requires UniqueIds(items)
    ensures Closed(items, matches, Closure(items, matches))
    ensures forall keep | Closed(items, matches, keep) :: Closure(items, matches) <= keep
  {
    hide Index, UniqueIds;
    var least := Closure(items, matches);
    var m := Index(items);
    forall i | 0 <= i < |items| && matches(items[i]) && items[i].id != "" ensures items[i].id in least {
      IndexRow(items, items[i]);
      assert Climbs(m, items[i].id, 0, items[i].id);
    }
    forall x | x in least && m[x].parent in m ensures m[x].parent in least {
      var u, n: nat :| u in items && matches(u) && Climbs(m, u.id, n, x);
      assert Climbs(m, m[x].parent, 0, m[x].parent);
      assert Climbs(m, x, 1, m[x].parent);
      ClimbJoin(m, u.id, n, x, 1, m[x].parent);
    }
    forall keep | Closed(items, matches, keep) ensures least <= keep {
      forall x | x in least ensures x in keep {
        var u, n: nat :| u in items && matches(u) && Climbs(m, u.id, n, x);
        assert u.id in m by { if n == 0 { assert u.id == x; } }
        NoEmptyId(items);
        ClosedClimb(items, matches, keep, u.id, n, x);
      }
    }
  }

  // ----- The marking walk -----

  function IdIn(keep: set<string>): Unit -> bool {
    (u: Unit) => u.id in keep
  }

  /** The zero value a Go map returns for a missing key. */
  const ZERO := Unit("", "", "", "", "", "", "", 0, Audit(0, "", 0, ""))

  method IndexById(items: seq<Unit>) returns (byId: Units)
    ensures byId == Table(items)
  {
    byId := map[];
    for i := 0 to |items|
      invariant byId == Table(items[..i])
    {
      assert items[..i + 1][..i] == items[..i];
      byId := byId[items[i].id := items[i]];
    }
    assert items[..|items|] == items;
  }

  /** Closed, but for the parent still to be visited. */
  predicate ClosedBut(m: Units, keep: set<string>, next: string) {
    forall x | x in keep && x in m && m[x].parent in m :: m[x].parent in keep || m[x].parent == next
  }

  /** One walk: from a match upwards until the top or an item already kept. Terminates on cycles. */
  method Mark(items: seq<Unit>, matches: Unit -> bool, byId: Units, item: Unit, keep0: set<string>) returns (keep: set<string>)
    requires UniqueIds(items) && byId == Table(items) && item in items && matches(item)
    requires ClosedBut(Index(items), keep0, "") && keep0 <= Closure(items, matches)
    ensures keep0 <= keep <= Closure(items, matches) && ClosedBut(Index(items), keep, "")
    ensures item.id != "" ==> item.id in keep
  {
    hide Table, Index, UniqueIds, Closure;
    keep := keep0;
    var current := item;
    ghost var n: nat := 0;
    ghost var m := Index(items);
    NoEmptyId(items);
    IndexRow(items, item);
    while current.id != "" && current.id !in keep
      invariant current.id != "" ==> current.id in m && m[current.id] == current && Climbs(m, item.id, n, current.id)
      invariant keep0 <= keep <= Closure(items, matches)
      invariant ClosedBut(m, keep, current.id)
      invariant item.id in keep || current == item
      decreases m.Keys - keep
    {
      InClosure(items, matches, item, n, current.id);
      keep := keep + {current.id};
      var parent := current.parent;
      Lookup(items, parent);
      if parent in m {
        assert Climbs(m, parent, 0, parent) && Climbs(m, current.id, 1, parent);
        ClimbJoin(m, item.id, n, current.id, 1, parent);
        n := n + 1;
      }
      current := if parent in byId then byId[parent] else ZERO;
    }
  }

  /** What the walk finds under a parent id: the item of that id, or something whose own id is empty. */
  lemma Lookup(items: seq<Unit>, x: string)
    ensures x in Index(items) <==> x in Table(items) && x != ""
    ensures x in Table(items) ==> Table(items)[x].id == x
    ensures x in Index(items) ==> Index(items)[x] == Table(items)[x]
  {
    TableKeys(items, x);
  }

  lemma InClosure(items: seq<Unit>, matches: Unit -> bool, u: Unit, n: nat, x: string)
    requires u in items && matches(u) && x in Index(items) && Climbs(Index(items), u.id, n, x)
    ensures x in Closure(items, matches)
  {
  }

  /** withOrganizationAncestors: the items of the closure, in their original order, even when the
      parent links contain cycles; stopping at items already kept loses nothing. */
  method WithOrganizationAncestors(items: seq<Unit>, matches: Unit -> bool) returns (result: seq<Unit>)
    requires UniqueIds(items)
    ensures result == Filter(items, IdIn(Closure(items, matches)))
  {
    hide Index, UniqueIds, Closure, Filter;
    var byId := IndexById(items);
    var keep: set<string> := {};
    for i := 0 to |items|
      invariant ClosedBut(Index(items), keep, "") && keep <= Closure(items, matches)
      invariant forall j | 0 <= j < i && matches(items[j]) && items[j].id != "" :: items[j].id in keep
    {
      if !matches(items[i]) {
        continue;
      }
      keep := Mark(items, matches, byId, items[i], keep);
    }
    ClosureIsLeast(items, matches);
    NoEmptyId(items);
    assert Closed(items, matches, keep);
    assert keep == Closure(items, matches);
    result := KeepItems(items, keep);
  }

  method KeepItems(items: seq<Unit>, keep: set<string>) returns (result: seq<Unit>)
    ensures result == Filter(items, IdIn(keep))
  {
    result := [];
    for i := 0 to |items|
      invariant result == Filter(items[..i], IdIn(keep))
    {
      assert items[..i + 1][..i] == items[..i];
      if items[i].id in keep {
        result := result + [items[i]];
      }
    }
    assert items[..|items|] == items;
  }

  // ----- The path-derived search -----

  /** The ids spelled out by a stored path. */
  function Segments(path: string): seq<string> {
    Split(Trim(path))
  }

  /** Stands for an ancestor not fetched yet; its empty tenant marks it. */
  function Placeholder(x: string): Unit {
    ZERO.(id := x)
  }

  predicate StatusOk(u: Unit, status: string) {
    status == "" || u.status == status
  }

  /** The non-empty entries of a list of ids. */
  function Names(ids: seq<string>): set<string> {
    set x | x in ids && x != ""
  }

  /** All ids named on the paths of the hits. */
  function NamedIds(hits: seq<Unit>): set<string> {
    if hits == [] then {} else NamedIds(hits[..|hits| - 1]) + Names(Segments(hits[|hits| - 1].path))
  }

  predicate Distinct(ids: seq<string>) {
    forall i, j | 0 <= i < j < |ids| :: ids[i] != ids[j]
  }

  /** The index holds the hits and a placeholder for every other name; the list holds those others, once each. */
  ghost predicate Reserved(hits: Units, names: set<string>, byId: Units, ids: seq<string>) {
    && byId.Keys == hits.Keys + names
    && (forall x | x in hits :: byId[x] == hits[x])
    && (forall x :: x in ids <==> x in names && x !in hits)
    && (forall x | x in ids :: x in byId && byId[x] == Placeholder(x))
    && Distinct(ids)
  }

  /** The inner loop: reserve the ids on one path. */
  method ReservePath(hits: Units, ghost names: set<string>, byId0: Units, ids0: seq<string>, path: seq<string>)
    returns (byId: Units, ids: seq<string>)
    requires Reserved(hits, names, byId0, ids0)
    ensures Reserved(hits, names + Names(path), byId, ids)
  {
    hide Reserved;
    byId, ids := byId0, ids0;
    assert names + Names([]) == names;
    for k := 0 to |path|
      invariant Reserved(hits, names + Names(path[..k]), byId, ids)
    {
      var id := path[k];
      assert path[..k + 1] == path[..k] + [id];
      ghost var seen := names + Names(path[..k]);
      assert names + Names(path[..k + 1]) == if id == "" then seen else seen + {id};
      if id == "" {
        continue;
      }
      ReserveOne(hits, seen, byId, ids, id);
      if id in byId {
        continue;
      }
      byId := byId[id := Placeholder(id)];
      ids := ids + [id];
    }
    assert path[..|path|] == path;
  }

  lemma ReserveOne(hits: Units, names: set<string>, byId: Units, ids: seq<string>, id: string)
    requires Reserved(hits, names, byId, ids) && id != ""
    ensures if id in byId then Reserved(hits, names + {id}, byId, ids)
            else Reserved(hits, names + {id}, byId[id := Placeholder(id)], ids + [id])
  {
    if id !in byId {
      assert id !in ids;
      var ids' := ids + [id];
      assert forall x :: x in ids' <==> x in ids || x == id;
    }
  }

  /** First two loops: index the hits, then reserve every other id on their paths. */
  method ReserveAncestors(hits: seq<Unit>) returns (byId: Units, ids: seq<string>)
    ensures Reserved(Table(hits), NamedIds(hits), byId, ids)
  {
    hide Segments, Table, Names;
    byId := IndexById(hits);
    var known := byId;
    ids := [];
    for i := 0 to |hits|
      invariant Reserved(known, NamedIds(hits[..i]), byId, ids)
    {
      assert hits[..i + 1][..i] == hits[..i];
      hide Reserved;
      byId, ids := ReservePath(known, NamedIds(hits[..i]), byId, ids, Segments(hits[i].path));
    }
    assert hits[..|hits|] == hits;
  }

  /** SELECT ... WHERE tenant_id = ? AND id IN (...) on the rows of the tenant. */
  function BatchGet(rows: seq<Unit>, ids: seq<string>): seq<Unit> {
    Filter(rows, (u: Unit) => u.id in ids)
  }

  /** What becomes of a reserved id: its row, if there is one and it passes the status filter. */
  function Resolve(rows: seq<Unit>, status: string, x: string): Unit {
    if x in Table(rows) && StatusOk(Table(rows)[x], status) then Table(rows)[x] else Placeholder(x)
  }

  /** One batch: fetch the rows of some ids and put those that pass in place of their placeholders. */
  method FillBatch(rows: seq<Unit>, status: string, byId0: Units, ids: seq<string>) returns (byId: Units)
    requires UniqueIds(rows)
    requires forall x | x in ids :: x in byId0 && byId0[x] == Placeholder(x)
    ensures byId.Keys == byId0.Keys
    ensures forall x | x in byId0 :: byId[x] == if x in ids then Resolve(rows, status, x) else byId0[x]
  {
    hide Table, UniqueIds, Filter;
    var fetched := BatchGet(rows, ids);
    assert forall u :: u in fetched <==> u in rows && u.id in ids;
    byId := byId0;
    for i := 0 to |fetched|
      invariant byId.Keys == byId0.Keys
      invariant forall x | x in byId0 ::
                  byId[x] == byId0[x] || (x in ids && StatusOk(byId[x], status) && x in Table(rows) && byId[x] == Table(rows)[x])
      invariant forall j | 0 <= j < i && StatusOk(fetched[j], status) :: byId[fetched[j].id] == fetched[j]
    {
      var item := fetched[i];
      assert item in fetched;
      TableRow(rows, item);
      assert forall j | 0 <= j < i && fetched[j].id == item.id :: fetched[j] == item by {
        SameRow(rows, fetched, item, i);
      }
      if StatusOk(item, status) {
        byId := byId[item.id := item];
      }
    }
    forall x | x in byId0 ensures byId[x] == if x in ids then Resolve(rows, status, x) else byId0[x] {
      if x in ids && x in Table(rows) && StatusOk(Table(rows)[x], status) {
        TableKeys(rows, x);
        var j :| 0 <= j < |fetched| && fetched[j] == Table(rows)[x];
      }
    }
  }

  lemma SameRow(rows: seq<Unit>, fetched: seq<Unit>, item: Unit, i: nat)
    requires UniqueIds(rows) && item in rows && i <= |fetched| && forall u :: u in fetched ==> u in rows
    ensures forall j | 0 <= j < i && fetched[j].id == item.id :: fetched[j] == item
  {
    hide UniqueIds, Table;
    forall j | 0 <= j < i && fetched[j].id == item.id ensures fetched[j] == item {
      assert fetched[j] in fetched;
      TableRow(rows, fetched[j]);
      TableRow(rows, item);
    }
  }

  const BATCH: nat := 500

  /** The batch loop: 500 ids at a time. */
  method FillAncestors(rows: seq<Unit>, status: string, byId0: Units, ids: seq<string>) returns (byId: Units)
    requires UniqueIds(rows) && Distinct(ids)
    requires forall x | x in ids :: x in byId0 && byId0[x] == Placeholder(x)
    ensures byId.Keys == byId0.Keys
    ensures forall x | x in byId0 :: byId[x] == if x in ids then Resolve(rows, status, x) else byId0[x]
  {
    hide Table, UniqueIds, Resolve, Placeholder;
    byId := byId0;
    var start := 0;
    while start < |ids|
      invariant 0 <= start
      invariant byId.Keys == byId0.Keys
      invariant forall x | x in byId0 ::
                  byId[x] == if x in ids[..Min(start, |ids|)] then Resolve(rows, status, x) else byId0[x]
      decreases |ids| - start
    {
      var end := Min(start + BATCH, |ids|);
      var batch := ids[start..end];
      assert ids[..end] == ids[..start] + batch;
      forall x | x in batch ensures x in ids && x !in ids[..start] {
        var j :| start <= j < end && ids[j] == x;
      }
      byId := FillBatch(rows, status, byId, batch);
      start := start + BATCH;
    }
    assert ids[..|ids|] == ids;
  }

  /** The values of the index that are real rows, in whatever order the keys come, then sorted. */
  method Collect(byId: Units) returns (items: seq<Unit>)
    requires forall x | x in byId :: byId[x].id == x
    ensures UniqueIds(items) && Ordered(ByPath, false, items)
    ensures forall u :: u in items <==> u.id in byId && byId[u.id] == u && u.tenant != ""
  {
    hide Sort, Before;
    items := [];
    var keys := byId.Keys;
    while keys != {}
      invariant keys <= byId.Keys
      invariant UniqueIds(items)
      invariant forall u :: u in items <==> u.id in byId && byId[u.id] == u && u.id !in keys && u.tenant != ""
      decreases keys
    {
      var key :| key in keys;
      keys := keys - {key};
      if byId[key].tenant != "" {
        items := items + [byId[key]];
      }
    }
    ghost var unsorted := items;
    items := Sort(ByPath, false, items);
    SortOrdered(ByPath, false, unsorted);
    forall u ensures u in items <==> u in unsorted { SortSame(ByPath, false, unsorted, u); }
    OrderedUniqueIds(byId, items);
  }

  lemma OrderedUniqueIds(byId: Units, items: seq<Unit>)
    requires Ordered(ByPath, false, items)
    requires forall u | u in items :: u.id in byId && byId[u.id] == u
    ensures UniqueIds(items)
  {
    hide Before;
    forall i, j | 0 <= i < j < |items| ensures items[i].id != items[j].id {
      assert items[i] in items && items[j] in items;
      assert Before(ByPath, false, items[i], items[j]);
      if items[i] == items[j] {
        BeforeAsymmetric(ByPath, false, items[i], items[j]);
      }
    }
  }

  /** The rows the first query returns before the limit cuts in. */
  function Hits(rows: seq<Unit>, matches: Unit -> bool, status: string): seq<Unit> {
    Sort(ByPath, false, Filter(rows, Passes(status, matches)))
  }

  /** The answer to a search: the first `limit` hits and every row that passes the status filter and is
      named on one of their paths, each once, sorted by path. */
  ghost predicate SearchAnswer(rows: seq<Unit>, matches: Unit -> bool, status: string, limit: nat,
                               items: seq<Unit>, truncated: bool)
  {
    var all := Hits(rows, matches, status);
    var hits := all[..Min(|all|, limit)];
    && truncated == (|all| > limit)
    && Ordered(ByPath, false, items) && UniqueIds(items)
    && forall u :: u in items <==> u in hits || (u in rows && StatusOk(u, status) && u.id in NamedIds(hits))
  }

  /** SearchOrganizationUnitsWithAncestors on the rows of one tenant. */
  method SearchWithAncestors(rows: seq<Unit>, matches: Unit -> bool, status: string, limit: nat)
    returns (items: seq<Unit>, truncated: bool)
    requires UniqueIds(rows) && forall i | 0 <= i < |rows| :: rows[i].tenant != ""
    ensures SearchAnswer(rows, matches, status, limit, items, truncated)
  {
    hide Table, UniqueIds, Filter, Sort, Hits, NamedIds, Ordered, Distinct, Resolve;
    var all := Hits(rows, matches, status);
    var hits := all[..Min(|all|, limit + 1)];
    truncated := |hits| > limit;
    if truncated {
      hits := hits[..limit];
    }
    assert hits == all[..Min(|all|, limit)];
    HitsAreRows(rows, matches, status, Min(|all|, limit));
    var byId, ids := ReserveAncestors(hits);
    byId := FillAncestors(rows, status, byId, ids);
    assert Filled(rows, status, hits, byId, ids);
    IndexEntries(rows, status, hits, byId, ids);
    items := Collect(byId);
    forall u ensures u in items <==> u in hits || (u in rows && StatusOk(u, status) && u.id in NamedIds(hits)) {
      Collected(rows, status, hits, byId, ids, u);
    }
  }

  lemma HitsAreRows(rows: seq<Unit>, matches: Unit -> bool, status: string, n: nat)
    requires UniqueIds(rows) && n <= |Hits(rows, matches, status)|
    ensures var hits := Hits(rows, matches, status)[..n];
            UniqueIds(hits) && forall u | u in hits :: u in rows && StatusOk(u, status) && matches(u)
  {
    var all := Hits(rows, matches, status);
    var kept := Filter(rows, Passes(status, matches));
    FilterUnique(rows, Passes(status, matches));
    SortOrdered(ByPath, false, kept);
    forall u | u in all ensures u in rows && StatusOk(u, status) && matches(u) {
      SortSame(ByPath, false, kept, u);
      assert Passes(status, matches)(u);
    }
    forall u | u in all ensures u.id in Table(rows) && Table(rows)[u.id] == u { TableRow(rows, u); }
    OrderedUniqueIds(Table(rows), all);
  }

  /** After the batches: hits under their ids, and every reserved id resolved. */
  ghost predicate Filled(rows: seq<Unit>, status: string, hits: seq<Unit>, byId: Units, ids: seq<string>) {
    && byId.Keys == Table(hits).Keys + NamedIds(hits)
    && (forall x | x in Table(hits) :: byId[x] == Table(hits)[x])
    && (forall x :: x in ids <==> x in NamedIds(hits) && x !in Table(hits))
    && (forall x | x in ids :: byId[x] == Resolve(rows, status, x))
  }

  lemma IndexEntries(rows: seq<Unit>, status: string, hits: seq<Unit>, byId: Units, ids: seq<string>)
    requires Filled(rows, status, hits, byId, ids)
    ensures forall x | x in byId :: byId[x].id == x
  {
    hide Table, NamedIds;
    forall x | x in byId ensures byId[x].id == x {
      if x in Table(hits) {
        TableKeys(hits, x);
      } else {
        assert x in ids;
        if x in Table(rows) { TableKeys(rows, x); }
      }
    }
  }

  lemma Collected(rows: seq<Unit>, status: string, hits: seq<Unit>, byId: Units, ids: seq<string>, u: Unit)
    requires UniqueIds(rows) && UniqueIds(hits) && (forall i | 0 <= i < |rows| :: rows[i].tenant != "")
    requires Filled(rows, status, hits, byId, ids) && forall v | v in hits :: v in rows && StatusOk(v, status)
    ensures u.id in byId && byId[u.id] == u && u.tenant != ""
       <==> u in hits || (u in rows && StatusOk(u, status) && u.id in NamedIds(hits))
  {
    hide UniqueIds, Table, NamedIds;
    TableRow(rows, u);
    TableRow(hits, u);
    if u.id in Table(hits) {
      TableKeys(hits, u.id);
      TableRow(rows, Table(hits)[u.id]);
    } else {
      assert u.id in byId ==> u.id in ids;
    }
  }
}
