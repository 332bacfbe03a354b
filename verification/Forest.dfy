/** The organization forest: parent links, the materialized path that indexes them,
    and the agreement between the two. */
module Forest {
  import opened Text
  import opened Tables

  type Units = map<string, Unit>

  // ----- Parent links alone -----

  /** `n` parent steps lead from `x` to `a`. Total on any table, cyclic ones included. */
  predicate Climbs(units: Units, x: string, n: nat, a: string)
    decreases n
  {
    if n == 0 then x == a
    else x in units && Climbs(units, units[x].parent, n - 1, a)
  }

  ghost predicate AncestorOrSelf(units: Units, a: string, x: string) {
    a in units && exists n: nat :: Climbs(units, x, n, a)
  }

  ghost predicate ProperDescendant(units: Units, y: string, x: string) {
    y != x && AncestorOrSelf(units, x, y)
  }

  ghost predicate Acyclic(units: Units) {
    forall x, n: nat | n > 0 && x in units :: !Climbs(units, x, n, x)
  }

  /** The path spelled out along `n` parent steps: "/" and then, root first, each id followed by "/". */
  function PathAlong(units: Units, x: string, n: nat): string
    decreases n
  {
    if n == 0 || x !in units then "/"
    else PathAlong(units, units[x].parent, n - 1) + x + "/"
  }

  /** `x` hangs from a root by finitely many parent steps inside one tenant,
      and stores exactly the ids along them. */
  ghost predicate Rooted(units: Units, x: string)
    requires x in units
  {
    exists n: nat :: Climbs(units, x, n, "") && units[x].path == PathAlong(units, x, n)
  }

  predicate RowAt(units: Units, x: string)
    requires x in units
  {
    var u := units[x];
    && ValidId(x) && u.id == x
    && (u.parent != "" ==> u.parent in units && units[u.parent].tenant == u.tenant)
  }

  /** The forest invariant, stated globally. */
  ghost predicate IsForest(units: Units) {
    forall x {:trigger RowAt(units, x)} | x in units :: RowAt(units, x) && Rooted(units, x)
  }

  // ----- The same invariant, one row at a time -----

  /** The path stored by the row `parent` links to; "/" above a root. */
  function BasePath(units: Units, parent: string): string
    requires parent != "" ==> parent in units
  {
    if parent == "" then "/" else units[parent].path
  }

  predicate LinkedAt(units: Units, x: string)
    requires x in units
  {
    RowAt(units, x) && units[x].path == BasePath(units, units[x].parent) + x + "/"
  }

  predicate Linked(units: Units) {
    forall x {:trigger LinkedAt(units, x)} | x in units :: LinkedAt(units, x)
  }

  lemma {:induction false} PathAlongClimb(units: Units, x: string, n: nat)
    requires Linked(units) && Climbs(units, x, n, "") && n > 0
    ensures x in units && units[x].path == PathAlong(units, x, n)
    decreases n
  {
    assert LinkedAt(units, x);
    var p := units[x].parent;
    if n == 1 {
      assert p == "";
    } else {
      PathAlongClimb(units, p, n - 1);
      assert LinkedAt(units, p);
    }
  }

  lemma {:induction false} RootClimb(units: Units, x: string) returns (n: nat)
    requires Linked(units) && x in units
    ensures n > 0 && Climbs(units, x, n, "")
    decreases |units[x].path|
  {
    assert LinkedAt(units, x);
    var p := units[x].parent;
    if p == "" {
      assert Climbs(units, p, 0, "");
      n := 1;
    } else {
      var k := RootClimb(units, p);
      n := k + 1;
    }
  }

  lemma {:induction false} ClimbDeterministic(units: Units, x: string, n: nat, m: nat)
    requires Climbs(units, x, n, "") && Climbs(units, x, m, "") && "" !in units
    ensures n == m
    decreases n
  {
    if n > 0 && m > 0 {
      ClimbDeterministic(units, units[x].parent, n - 1, m - 1);
    }
  }

  /** The row-local condition and the global invariant are the same thing. */
  lemma LinkedIsForest(units: Units)
    ensures Linked(units) <==> IsForest(units)
  {
    if Linked(units) {
      forall x | x in units ensures RowAt(units, x) && Rooted(units, x) {
        assert LinkedAt(units, x);
        var n := RootClimb(units, x);
        PathAlongClimb(units, x, n);
      }
    }
    if IsForest(units) {
      forall x | x in units ensures LinkedAt(units, x) {
        ForestRow(units, x);
      }
    }
  }

  lemma NoEmptyId(units: Units)
    requires IsForest(units)
    ensures "" !in units
  {
    forall x | x in units ensures x != "" {
      assert RowAt(units, x);
    }
  }

  lemma ForestRow(units: Units, x: string)
    requires IsForest(units) && x in units
    ensures LinkedAt(units, x)
  {
    assert RowAt(units, x) && Rooted(units, x);
    var n: nat :| Climbs(units, x, n, "") && units[x].path == PathAlong(units, x, n);
    var p := units[x].parent;
    assert n > 0 && Climbs(units, p, n - 1, "");
    NoEmptyId(units);
    if p == "" {
      assert Climbs(units, p, 0, "");
      ClimbDeterministic(units, p, n - 1, 0);
      assert PathAlong(units, p, 0) == "/";
    } else {
      assert RowAt(units, p) && Rooted(units, p);
      var k: nat :| Climbs(units, p, k, "") && units[p].path == PathAlong(units, p, k);
      ClimbDeterministic(units, p, n - 1, k);
    }
  }

  // ----- Climbing -----

  lemma {:induction false} ClimbJoin(units: Units, x: string, n: nat, a: string, m: nat, b: string)
    requires Climbs(units, x, n, a) && Climbs(units, a, m, b)
    ensures Climbs(units, x, n + m, b)
    decreases n
  {
    if n > 0 {
      ClimbJoin(units, units[x].parent, n - 1, a, m, b);
    }
  }

  lemma {:induction false} ClimbSplit(units: Units, x: string, n: nat, a: string, m: nat, b: string)
    requires Climbs(units, x, n, a) && Climbs(units, x, n + m, b)
    ensures Climbs(units, a, m, b)
    decreases n
  {
    if n > 0 {
      ClimbSplit(units, units[x].parent, n - 1, a, m, b);
    }
  }

  /** Every step up shortens the path. */
  lemma {:induction false} ClimbShortens(units: Units, x: string, n: nat, a: string)
    requires Linked(units) && x in units && a in units && Climbs(units, x, n, a)
    ensures units[a].path <= units[x].path
    ensures |units[a].path| + n <= |units[x].path|
    ensures units[a].tenant == units[x].tenant
    decreases n
  {
    assert LinkedAt(units, x);
    if n > 0 {
      var p := units[x].parent;
      assert p in units ==> LinkedAt(units, p);
      assert LinkedAt(units, a);
      ClimbShortens(units, p, n - 1, a);
    }
  }

  lemma LinkedIsAcyclic(units: Units)
    requires Linked(units)
    ensures Acyclic(units)
  {
    forall x, n: nat | n > 0 && x in units ensures !Climbs(units, x, n, x) {
      if Climbs(units, x, n, x) {
        ClimbShortens(units, x, n, x);
      }
    }
  }

  // ----- Paths as prefixes -----

  lemma {:induction false} PathShape(units: Units, x: string)
    requires Linked(units) && x in units
    ensures |units[x].path| > |x| + 1 && units[x].path[0] == '/' && units[x].path[|units[x].path| - 1] == '/'
    ensures Plain(units[x].path)
    decreases |units[x].path|
  {
    assert LinkedAt(units, x);
    var p := units[x].parent;
    if p != "" {
      PathShape(units, p);
    }
  }

  /** A path that ends in "/" and is a prefix of q + id + "/" is all of it or a prefix of q. */
  lemma PrefixStep(p: string, q: string, id: string)
    requires p != "" && p[|p| - 1] == '/'
    requires SlashFree(id) && p <= q + id + "/"
    ensures p == q + id + "/" || p <= q
  {
    var s := q + id + "/";
    SegmentInside(q, id);
  }

  lemma SegmentInside(q: string, id: string)
    requires SlashFree(id)
    ensures forall i | |q| <= i < |q| + |id| :: (q + id + "/")[i] != '/'
  {
    forall i | |q| <= i < |q| + |id| ensures (q + id + "/")[i] != '/' {
      assert (q + id + "/")[i] == id[i - |q|] && id[i - |q|] in id;
    }
  }

  /** A path ends with its own id: equal paths belong to one row. */
  lemma PathNamesRow(base: string, x: string, base': string, y: string)
    requires base != "" && base[|base| - 1] == '/' && base' != "" && base'[|base'| - 1] == '/'
    requires SlashFree(x) && SlashFree(y)
    requires base + x + "/" == base' + y + "/"
    ensures x == y && base == base'
  {
    var s := base + x + "/";
    SegmentInside(base, x);
    SegmentInside(base', y);
    assert s[|base| - 1] == '/' && (base' + y + "/")[|base'| - 1] == '/';
    assert |base| == |base'|;
    assert x == s[|base|..|s| - 1];
    assert y == (base' + y + "/")[|base'|..|s| - 1];
    assert base == s[..|base|] && base' == (base' + y + "/")[..|base'|];
  }

  lemma BaseShape(units: Units, x: string)
    requires Linked(units) && x in units
    ensures var p := units[x].parent; p != "" ==> p in units
    ensures var b := BasePath(units, units[x].parent); b != "" && b[|b| - 1] == '/'
  {
    assert LinkedAt(units, x);
    if units[x].parent != "" {
      PathShape(units, units[x].parent);
    }
  }

  lemma PathsDistinct(units: Units, x: string, y: string)
    requires Linked(units) && x in units && y in units && units[x].path == units[y].path
    ensures x == y
  {
    assert LinkedAt(units, x) && LinkedAt(units, y);
    BaseShape(units, x);
    BaseShape(units, y);
    PathNamesRow(BasePath(units, units[x].parent), x, BasePath(units, units[y].parent), y);
  }

  /** Whatever prefixes a path, other than itself, prefixes the parent's. */
  lemma ParentPrefix(units: Units, a: string, x: string)
    requires Linked(units) && a in units && x in units
    requires units[a].path <= units[x].path && a != x
    ensures units[x].parent in units && units[a].path <= units[units[x].parent].path
  {
    assert LinkedAt(units, x) && LinkedAt(units, a);
    PathShape(units, a);
    if units[a].path == units[x].path {
      PathsDistinct(units, a, x);
    }
    PrefixStep(units[a].path, BasePath(units, units[x].parent), x);
  }

  lemma {:induction false} PrefixClimb(units: Units, a: string, x: string) returns (n: nat)
    requires Linked(units) && a in units && x in units && units[a].path <= units[x].path
    ensures Climbs(units, x, n, a)
    decreases |units[x].path|
  {
    if a == x {
      n := 0;
    } else {
      ParentPrefix(units, a, x);
      assert LinkedAt(units, x) && LinkedAt(units, units[x].parent);
      var k := PrefixClimb(units, a, units[x].parent);
      n := k + 1;
    }
  }

  /** The path-prefix test decides the ancestor-or-self relation of the parent links. */
  lemma PrefixIsAncestor(units: Units, a: string, x: string)
    requires Linked(units) && a in units && x in units
    ensures units[a].path <= units[x].path <==> AncestorOrSelf(units, a, x)
  {
    if units[a].path <= units[x].path {
      var n := PrefixClimb(units, a, x);
    }
    if AncestorOrSelf(units, a, x) {
      var n: nat :| Climbs(units, x, n, a);
      ClimbShortens(units, x, n, a);
    }
  }

  /** Parent links determine every path. */
  lemma {:induction false} LinksDeterminePaths(before: Units, after: Units, x: string)
    requires Linked(before) && Linked(after) && before.Keys == after.Keys && x in before
    requires forall y | y in before :: before[y].parent == after[y].parent
    ensures before[x].path == after[x].path
    decreases |before[x].path|
  {
    assert LinkedAt(before, x) && LinkedAt(after, x);
    if before[x].parent != "" {
      LinksDeterminePaths(before, after, before[x].parent);
    }
  }
}
