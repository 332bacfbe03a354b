/** Filtering, ordering and paging of organization units. */
module Listing {
  import opened Text
  import opened Tables

  datatype Field = ByPath | ByCode | ByName

  predicate UniqueIds(items: seq<Unit>) {
    forall i, j | 0 <= i < j < |items| :: items[i].id != items[j].id
  }

  // ----- The order of sortOrganizationUnits -----

  function Key(field: Field, u: Unit): string {
    match field
    case ByPath => u.path
    case ByCode => u.code
    case ByName => u.name
  }

  /** The comparison function given to the sort. */
  predicate Before(field: Field, descending: bool, a: Unit, b: Unit) {
    var (left, right) :=
      if Key(field, a) == Key(field, b) then (a.id, b.id) else (Key(field, a), Key(field, b));
    if descending then Less(right, left) else Less(left, right)
  }

  lemma BeforeTotal(field: Field, descending: bool, a: Unit, b: Unit)
    requires a.id != b.id
    ensures Before(field, descending, a, b) || Before(field, descending, b, a)
  {
    LessTotal(Key(field, a), Key(field, b));
    LessTotal(a.id, b.id);
  }

  lemma BeforeAsymmetric(field: Field, descending: bool, a: Unit, b: Unit)
    requires Before(field, descending, a, b)
    ensures !Before(field, descending, b, a)
  {
    var (left, right) :=
      if Key(field, a) == Key(field, b) then (a.id, b.id) else (Key(field, a), Key(field, b));
    if descending { LessAsymmetric(right, left); } else { LessAsymmetric(left, right); }
  }

  lemma BeforeTransitive(field: Field, descending: bool, a: Unit, b: Unit, c: Unit)
    requires Before(field, descending, a, b) && Before(field, descending, b, c)
    ensures Before(field, descending, a, c)
  {
    var (ka, kb, kc) := (Key(field, a), Key(field, b), Key(field, c));
    if descending {
      BeforeTransitiveKeys(kc, kb, ka, c.id, b.id, a.id);
    } else {
      BeforeTransitiveKeys(ka, kb, kc, a.id, b.id, c.id);
    }
  }

  lemma BeforeTransitiveKeys(ka: string, kb: string, kc: string, ia: string, ib: string, ic: string)
    requires if ka == kb then Less(ia, ib) else Less(ka, kb)
    requires if kb == kc then Less(ib, ic) else Less(kb, kc)
    ensures if ka == kc then Less(ia, ic) else Less(ka, kc)
  {
    if ka == kb && kb == kc {
      LessTransitive(ia, ib, ic);
    } else if ka != kb && kb != kc {
      LessTransitive(ka, kb, kc);
      LessIrreflexive(ka);
    }
  }

  /** Strictly increasing in the order of the comparison. */
  predicate Ordered(field: Field, descending: bool, s: seq<Unit>) {
    forall i, j | 0 <= i < j < |s| :: Before(field, descending, s[i], s[j])
  }

  /** A set of units has at most one strictly increasing arrangement. */
  lemma {:induction false} OrderedUnique(field: Field, descending: bool, a: seq<Unit>, b: seq<Unit>)
    requires Ordered(field, descending, a) && Ordered(field, descending, b)
    requires forall u :: u in a <==> u in b
    ensures a == b
  {
    assert a != [] ==> a[0] in a;
    assert b != [] ==> b[0] in b;
    if a != [] && b != [] {
      SameHead(field, descending, a, b);
      NotInTail(field, descending, a);
      NotInTail(field, descending, b);
      forall u ensures u in a[1..] <==> u in b[1..] {
        assert u in a <==> u == a[0] || u in a[1..];
        assert u in b <==> u == b[0] || u in b[1..];
      }
      OrderedUnique(field, descending, a[1..], b[1..]);
      assert a == [a[0]] + a[1..] && b == [b[0]] + b[1..];
    }
  }

  lemma SameHead(field: Field, descending: bool, a: seq<Unit>, b: seq<Unit>)
    requires Ordered(field, descending, a) && Ordered(field, descending, b)
    requires a != [] && b != [] && a[0] in b && b[0] in a
    ensures a[0] == b[0]
  {
    if a[0] != b[0] {
      assert Before(field, descending, b[0], a[0]) && Before(field, descending, a[0], b[0]);
      BeforeAsymmetric(field, descending, a[0], b[0]);
    }
  }

  lemma NotInTail(field: Field, descending: bool, a: seq<Unit>)
    requires Ordered(field, descending, a) && a != []
    ensures a[0] !in a[1..]
  {
    if a[0] in a[1..] {
      var i :| 0 <= i < |a| - 1 && a[1..][i] == a[0];
      assert Before(field, descending, a[0], a[i + 1]);
      BeforeAsymmetric(field, descending, a[0], a[0]);
    }
  }

  // ----- Sorting -----

  function Insert(field: Field, descending: bool, u: Unit, s: seq<Unit>): (r: seq<Unit>)
    ensures multiset(r) == multiset(s) + multiset{u}
  {
    if s == [] then [u]
    else if Before(field, descending, s[0], u) then
      assert s == [s[0]] + s[1..];
      [s[0]] + Insert(field, descending, u, s[1..])
    else [u] + s
  }

  /** What any correct stable sort returns; see SortIsTheSort. */
  function Sort(field: Field, descending: bool, s: seq<Unit>): (r: seq<Unit>)
    ensures multiset(r) == multiset(s) && |r| == |s|
  {
    if s == [] then []
    else
      assert s == [s[0]] + s[1..];
      var r := Insert(field, descending, s[0], Sort(field, descending, s[1..]));
      assert |multiset(r)| == |multiset(s)|;
      r
  }

  lemma {:induction false} InsertOrdered(field: Field, descending: bool, u: Unit, s: seq<Unit>)
    requires Ordered(field, descending, s) && forall v | v in s :: v.id != u.id
    ensures Ordered(field, descending, Insert(field, descending, u, s))
  {
    if s != [] {
      var r := Insert(field, descending, u, s);
      if Before(field, descending, s[0], u) {
        var tail := Insert(field, descending, u, s[1..]);
        InsertOrdered(field, descending, u, s[1..]);
        forall v | v in tail ensures Before(field, descending, s[0], v) {
          assert v in multiset(tail);
          assert v == u || v in s[1..];
        }
      } else {
        forall v | v in s ensures Before(field, descending, u, v) {
          BeforeTotal(field, descending, u, s[0]);
          if v != s[0] { BeforeTransitive(field, descending, u, s[0], v); }
        }
      }
    }
  }

  lemma SortSame(field: Field, descending: bool, s: seq<Unit>, u: Unit)
    ensures u in Sort(field, descending, s) <==> u in s
  {
    assert u in multiset(Sort(field, descending, s)) <==> u in multiset(s);
  }

  lemma {:induction false} SortOrdered(field: Field, descending: bool, s: seq<Unit>)
    requires UniqueIds(s)
    ensures Ordered(field, descending, Sort(field, descending, s))
  {
    if s != [] {
      SortOrdered(field, descending, s[1..]);
      forall v | v in Sort(field, descending, s[1..]) ensures v.id != s[0].id {
        SortSame(field, descending, s[1..], v);
      }
      InsertOrdered(field, descending, s[0], Sort(field, descending, s[1..]));
    }
  }

  /** On rows with distinct ids the order is total, so every correct sort gives this sequence. */
  lemma {:induction false} SortIsTheSort(field: Field, descending: bool, s: seq<Unit>, r: seq<Unit>)
    requires UniqueIds(s)
    requires Ordered(field, descending, r) && forall u :: u in r <==> u in s
    ensures r == Sort(field, descending, s)
  {
    SortOrdered(field, descending, s);
    forall u ensures u in r <==> u in Sort(field, descending, s) {
      SortSame(field, descending, s, u);
    }
    OrderedUnique(field, descending, r, Sort(field, descending, s));
  }

  // ----- Filtering -----

  function Filter(s: seq<Unit>, p: Unit -> bool): (r: seq<Unit>)
    ensures forall u :: u in r <==> u in s && p(u)
  {
    if s == [] then []
    else
      var before := Filter(s[..|s| - 1], p);
      var last := s[|s| - 1];
      assert s == s[..|s| - 1] + [last];
      if p(last) then before + [last] else before
  }

  lemma {:induction false} FilterOrdered(field: Field, descending: bool, s: seq<Unit>, p: Unit -> bool)
    requires Ordered(field, descending, s)
    ensures Ordered(field, descending, Filter(s, p))
  {
    hide Before;
    if s != [] {
      var before := s[..|s| - 1];
      FilterOrdered(field, descending, before, p);
      var f := Filter(before, p);
      forall i | 0 <= i < |f| ensures Before(field, descending, f[i], s[|s| - 1]) {
        assert f[i] in before;
      }
    }
  }

  lemma {:induction false} FilterUnique(s: seq<Unit>, p: Unit -> bool)
    requires UniqueIds(s)
    ensures UniqueIds(Filter(s, p))
  {
    if s != [] {
      var before := s[..|s| - 1];
      FilterUnique(before, p);
      var f := Filter(before, p);
      forall i | 0 <= i < |f| ensures f[i].id != s[|s| - 1].id {
        assert f[i] in before;
      }
    }
  }

  /** The two tests of filterOrganizationUnits. */
  function Passes(status: string, matches: Unit -> bool): Unit -> bool {
    (u: Unit) => (status == "" || u.status == status) && matches(u)
  }

  /** filterOrganizationUnits: the loop that keeps the items passing both tests. */
  method FilterUnits(items: seq<Unit>, status: string, matches: Unit -> bool) returns (result: seq<Unit>)
    ensures result == Filter(items, Passes(status, matches))
  {
    ghost var p := Passes(status, matches);
    result := [];
    for i := 0 to |items|
      invariant result == Filter(items[..i], p)
    {
      assert items[..i + 1][..i] == items[..i];
      if status != "" && items[i].status != status {
        continue;
      }
      if !matches(items[i]) {
        continue;
      }
      result := result + [items[i]];
    }
    assert items[..|items|] == items;
  }

  // ----- Paging -----

  function Min(a: int, b: int): int {
    if a < b then a else b
  }

  function Max(a: int, b: int): int {
    if a < b then b else a
  }

  datatype Search = Search(matches: Unit -> bool, status: string, field: Field, descending: bool, page: int, pageSize: int)

  datatype QueryError = BadRequest

  datatype QueryResult = Page(items: seq<Unit>, total: nat, page: int, pageSize: int) | Refused(error: QueryError)

  function PageOf(s: seq<Unit>, page: int, size: int): seq<Unit>
    requires page >= 1 && size >= 1
  {
    var start := (page - 1) * size;
    if start >= |s| then [] else s[start..Min(start + size, |s|)]
  }

  /** `left` before `right`, the ids deciding between equal values. */
  predicate Precedes(left: string, right: string, leftId: string, rightId: string) {
    Less(left, right) || (left == right && Less(leftId, rightId))
  }

  /** In the order of the named column, or in its mirror image. */
  predicate InColumnOrder(field: Field, descending: bool, s: seq<Unit>) {
    forall i, j | 0 <= i < j < |s| ::
      var (a, b) := if descending then (s[j], s[i]) else (s[i], s[j]);
      && (field == ByPath ==> Precedes(a.path, b.path, a.id, b.id))
      && (field == ByCode ==> Precedes(a.code, b.code, a.id, b.id))
      && (field == ByName ==> Precedes(a.name, b.name, a.id, b.id))
  }

  lemma OrderedByColumn(field: Field, descending: bool, s: seq<Unit>)
    requires Ordered(field, descending, s)
    ensures InColumnOrder(field, descending, s)
  {
    hide Less;
    forall i, j | 0 <= i < j < |s|
      ensures var (a, b) := if descending then (s[j], s[i]) else (s[i], s[j]);
              && (field == ByPath ==> Precedes(a.path, b.path, a.id, b.id))
              && (field == ByCode ==> Precedes(a.code, b.code, a.id, b.id))
              && (field == ByName ==> Precedes(a.name, b.name, a.id, b.id))
    {
      assert Before(field, descending, s[i], s[j]);
    }
  }

  /** The whole answer a query pages through: exactly the items passing both tests, in the order of the named column. */
  ghost predicate Answers(items: seq<Unit>, search: Search, all: seq<Unit>) {
    && (forall u :: u in all <==> u in items && (search.status == "" || u.status == search.status) && search.matches(u))
    && (UniqueIds(items) ==> UniqueIds(all) && InColumnOrder(search.field, search.descending, all))
  }

  lemma QueryAnswers(items: seq<Unit>, search: Search)
    ensures Answers(items, search, Sort(search.field, search.descending, Filter(items, Passes(search.status, search.matches))))
  {
    hide Filter, Sort, Before, InColumnOrder;
    var p := Passes(search.status, search.matches);
    var kept := Filter(items, p);
    var all := Sort(search.field, search.descending, kept);
    forall u ensures u in all <==> u in items && (search.status == "" || u.status == search.status) && search.matches(u) {
      SortSame(search.field, search.descending, kept, u);
      assert p(u) <==> (search.status == "" || u.status == search.status) && search.matches(u);
    }
    if UniqueIds(items) {
      FilterUnique(items, p);
      SortOrdered(search.field, search.descending, kept);
      OrderedByColumn(search.field, search.descending, all);
      SortUnique(search.field, search.descending, kept);
    }
  }

  /** Every stretch of the answer is in column order. */
  lemma AnswersOrdered(items: seq<Unit>, search: Search, all: seq<Unit>)
    requires Answers(items, search, all)
    ensures UniqueIds(items) ==> forall i, j | 0 <= i <= j <= |all| :: InColumnOrder(search.field, search.descending, all[i..j])
    ensures InColumnOrder(search.field, search.descending, [])
  {
    hide Precedes;
  }

  lemma SortUnique(field: Field, descending: bool, s: seq<Unit>)
    requires UniqueIds(s)
    ensures UniqueIds(Sort(field, descending, s))
  {
    hide Sort;
    var r := Sort(field, descending, s);
    SortOrdered(field, descending, s);
    forall i, j | 0 <= i < j < |r| ensures r[i].id != r[j].id {
      SortSame(field, descending, s, r[i]);
      SortSame(field, descending, s, r[j]);
      assert Before(field, descending, r[i], r[j]);
      if r[i] == r[j] { BeforeAsymmetric(field, descending, r[i], r[j]); }
    }
  }

  /** Query: defaults, validation, then filter, sort and cut one page. The answer is also stated on the columns alone:
      the page holds positions (page - 1) * size onward of the list that Answers describes. */
  method Query(items: seq<Unit>, search: Search) returns (r: QueryResult)
    ensures var page := if search.page == 0 then 1 else search.page;
            var size := if search.pageSize == 0 then 20 else search.pageSize;
            if page < 1 || size < 1 || size > 100 then r == Refused(BadRequest)
            else
              var all := Sort(search.field, search.descending, Filter(items, Passes(search.status, search.matches)));
              && r == Page(PageOf(all, page, size), |all|, page, size)
              && Answers(items, search, all)
              && (UniqueIds(items) ==> InColumnOrder(search.field, search.descending, r.items))
              && |r.items| == Max(0, Min(size, r.total - (page - 1) * size))
              && forall i | 0 <= i < |r.items| :: 0 <= (page - 1) * size + i < |all| && r.items[i] == all[(page - 1) * size + i]
  {
    hide Sort, Filter, Passes, Answers, InColumnOrder, UniqueIds;
    QueryAnswers(items, search);
    AnswersOrdered(items, search, Sort(search.field, search.descending, Filter(items, Passes(search.status, search.matches))));
    var page := if search.page == 0 then 1 else search.page;
    var size := if search.pageSize == 0 then 20 else search.pageSize;
    if page < 1 || size < 1 || size > 100 {
      return Refused(BadRequest);
    }
    var kept := FilterUnits(items, search.status, search.matches);
    kept := Sort(search.field, search.descending, kept);
    var total := |kept|;
    var start := (page - 1) * size;
    assert start >= 0 by { MulMonotone(0, page - 1, size); }
    if start >= |kept| {
      kept := [];
    } else {
      var end := Min(start + size, |kept|);
      kept := kept[start..end];
    }
    return Page(kept, total, page, size);
  }

  /** Pages 1 to n, one after the other. */
  function Pages(s: seq<Unit>, size: int, n: nat): seq<Unit>
    requires size >= 1
  {
    if n == 0 then [] else Pages(s, size, n - 1) + PageOf(s, n, size)
  }

  lemma {:induction false} PagesArePrefix(s: seq<Unit>, size: int, n: nat)
    requires size >= 1
    ensures Min(n * size, |s|) >= 0 && Pages(s, size, n) == s[..Min(n * size, |s|)]
  {
    if n > 0 {
      PagesArePrefix(s, size, n - 1);
      assert n * size == (n - 1) * size + size;
    }
  }

  /** Paging is lossless: as many pages as the total needs give the whole list, with no gap and no
      repeat, and every later page is empty. */
  lemma {:induction false} PagingLossless(s: seq<Unit>, size: int, n: nat)
    requires size >= 1 && n * size >= |s|
    ensures Pages(s, size, n) == s
    ensures forall page: int | page > n :: PageOf(s, page, size) == []
  {
    PagesArePrefix(s, size, n);
    forall page: int | page > n ensures PageOf(s, page, size) == [] {
      assert (page - 1) * size >= n * size by { MulMonotone(n, page - 1, size); }
    }
  }

  lemma MulMonotone(a: int, b: int, c: int)
    requires a <= b && c >= 0
    ensures a * c <= b * c
  {
    assert (b - a) * c >= 0;
  }

  // ----- Descending is the reverse of ascending -----

  function Reverse(s: seq<Unit>): seq<Unit> {
    seq(|s|, i requires 0 <= i < |s| => s[|s| - 1 - i])
  }

  lemma Flip(field: Field, a: Unit, b: Unit)
    ensures Before(field, true, a, b) <==> Before(field, false, b, a)
  {
  }

  lemma ReverseOrdered(field: Field, s: seq<Unit>)
    requires Ordered(field, false, s)
    ensures Ordered(field, true, Reverse(s))
  {
    hide Before;
    var r := Reverse(s);
    forall i, j | 0 <= i < j < |r| ensures Before(field, true, r[i], r[j]) {
      Flip(field, r[i], r[j]);
      assert r[i] == s[|s| - 1 - i] && r[j] == s[|s| - 1 - j];
    }
  }

  lemma ReverseSame(s: seq<Unit>, u: Unit)
    ensures u in Reverse(s) <==> u in s
  {
    var r := Reverse(s);
    if u in s {
      var i :| 0 <= i < |s| && s[i] == u;
      assert r[|s| - 1 - i] == u;
    }
  }

  lemma {:induction false} DescendingIsReverse(field: Field, s: seq<Unit>)
    requires UniqueIds(s)
    ensures Sort(field, true, s) == Reverse(Sort(field, false, s))
  {
    hide Before, Reverse, Ordered, Sort;
    var up := Sort(field, false, s);
    SortOrdered(field, false, s);
    ReverseOrdered(field, up);
    forall u ensures u in Reverse(up) <==> u in s {
      SortSame(field, false, s, u);
      ReverseSame(up, u);
    }
    SortIsTheSort(field, true, s, Reverse(up));
  }
}
