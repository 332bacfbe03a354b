/** Membership directory search: a paged join of an identity directory with the memberships of a tenant. */
module MembershipDirectory {
  import opened Tables

  datatype User = User(id: string, name: string)

  datatype Entry = Entry(membership: Membership, user: User)

  datatype Failure = BadRequest | Unavailable

  datatype Answer = Found(entries: seq<Entry>) | Failed(failure: Failure)

  const PAGE_SIZE: nat := 100
  const MAX_PAGES: nat := 5

  function Min(a: nat, b: nat): nat {
    if a < b then a else b
  }

  // ----- The directory and the finder -----

  /** Page `page` of the users that match the keyword. */
  function UserPage(users: seq<User>, page: nat): seq<User>
    requires page >= 1
  {
    var start := Min((page - 1) * PAGE_SIZE, |users|);
    users[start..Min(start + PAGE_SIZE, |users|)]
  }

  predicate IsActive(row: Membership, tenant: string, user: string) {
    row.tenant == tenant && row.user == user && row.status == "active"
  }

  /** UNIQUE (tenant_id, user_id). */
  predicate OnePerUser(rows: seq<Membership>) {
    forall i, j | 0 <= i < j < |rows| :: !(rows[i].tenant == rows[j].tenant && rows[i].user == rows[j].user)
  }

  /** FindMembershipsByUserIDs(tenant, ids, "active"). */
  function Find(rows: seq<Membership>, tenant: string, ids: seq<string>): (r: seq<Membership>)
    ensures forall m :: m in r <==> m in rows && m.user in ids && IsActive(m, tenant, m.user)
  {
    if rows == [] then []
    else
      var before := Find(rows[..|rows| - 1], tenant, ids);
      var last := rows[|rows| - 1];
      assert rows == rows[..|rows| - 1] + [last];
      if last.user in ids && IsActive(last, tenant, last.user) then before + [last] else before
  }

  // ----- The specification -----

  /** The users that have an active membership, with it, in the order of the directory. */
  ghost function Joined(rows: seq<Membership>, tenant: string, users: seq<User>): seq<Entry> {
    if users == [] then []
    else
      var before := Joined(rows, tenant, users[..|users| - 1]);
      var u := users[|users| - 1];
      if m :| m in rows && IsActive(m, tenant, u.id) then before + [Entry(m, u)] else before
  }

  ghost function Joins(rows: seq<Membership>, tenant: string, users: seq<User>, n: nat): seq<Entry> {
    Joined(rows, tenant, users[..Min(n, |users|)])
  }

  /** The first `limit` active members among the first five hundred users. */
  ghost function Expected(rows: seq<Membership>, tenant: string, users: seq<User>, limit: nat): seq<Entry> {
    var all := Joins(rows, tenant, users, MAX_PAGES * PAGE_SIZE);
    all[..Min(limit, |all|)]
  }

  /** Page `page` is asked for: everything before it was full and did not yield enough. */
  ghost predicate Reached(rows: seq<Membership>, tenant: string, users: seq<User>, limit: nat, page: nat) {
    && 1 <= page <= MAX_PAGES
    && (page == 1 || (page - 1) * PAGE_SIZE < |users|)
    && |Joins(rows, tenant, users, (page - 1) * PAGE_SIZE)| < limit
  }

  /** The directory is down for this page, or it holds a user without an id, which the finder refuses. */
  predicate Breaks(users: seq<User>, down: set<nat>, page: nat)
    requires page >= 1
  {
    page in down || exists i | 0 <= i < |UserPage(users, page)| :: UserPage(users, page)[i].id == ""
  }

  ghost predicate ReachesBroken(rows: seq<Membership>, tenant: string, users: seq<User>, down: set<nat>, limit: nat) {
    exists page: nat :: Reached(rows, tenant, users, limit, page) && Breaks(users, down, page)
  }

  /** The page at which the search gives up. */
  ghost predicate FirstBroken(rows: seq<Membership>, tenant: string, users: seq<User>, down: set<nat>, limit: nat, page: nat) {
    && Reached(rows, tenant, users, limit, page) && Breaks(users, down, page)
    && forall p: nat | 1 <= p < page && Reached(rows, tenant, users, limit, p) :: !Breaks(users, down, p)
  }

  /** A directory that is down is unavailable; a user without an id makes the finder refuse the request. */
  function FailureOf(down: set<nat>, page: nat): Failure {
    if page in down then Unavailable else BadRequest
  }

  // ----- Prefixes -----

  lemma {:induction false} JoinedPrefix(rows: seq<Membership>, tenant: string, users: seq<User>, i: nat)
    requires i <= |users|
    ensures Joined(rows, tenant, users[..i]) <= Joined(rows, tenant, users)
  {
    if i < |users| {
      var before := users[..|users| - 1];
      JoinedPrefix(rows, tenant, before, i);
      assert before[..i] == users[..i];
    } else {
      assert users[..i] == users;
    }
  }

  lemma JoinsGrow(rows: seq<Membership>, tenant: string, users: seq<User>, m: nat, n: nat)
    requires m <= n
    ensures Joins(rows, tenant, users, m) <= Joins(rows, tenant, users, n)
  {
    var (i, j) := (Min(m, |users|), Min(n, |users|));
    assert users[..j][..i] == users[..i];
    JoinedPrefix(rows, tenant, users[..j], i);
  }

  lemma JoinedSnoc(rows: seq<Membership>, tenant: string, users: seq<User>, i: nat, m: Option<Membership>)
    requires i < |users| && OnePerUser(rows)
    requires m.Some? ==> m.value in rows && IsActive(m.value, tenant, users[i].id)
    requires m.None? ==> forall row | row in rows :: !IsActive(row, tenant, users[i].id)
    ensures Joined(rows, tenant, users[..i + 1])
         == Joined(rows, tenant, users[..i]) + if m.Some? then [Entry(m.value, users[i])] else []
  {
    assert users[..i + 1][..i] == users[..i];
  }

  // ----- The search -----

  /** The lookup by user id over the rows found for a page. */
  method IndexByUser(values: seq<Membership>) returns (byUser: map<string, Membership>)
    ensures forall user :: user in byUser <==> exists m :: m in values && m.user == user
    ensures forall user | user in byUser :: byUser[user] in values && byUser[user].user == user
  {
    byUser := map[];
    for i := 0 to |values|
      invariant forall user :: user in byUser <==> exists m :: m in values[..i] && m.user == user
      invariant forall user | user in byUser :: byUser[user] in values && byUser[user].user == user
    {
      assert values[..i + 1] == values[..i] + [values[i]];
      byUser := byUser[values[i].user := values[i]];
    }
    assert values[..|values|] == values;
  }

  /** The inner loop over one page: append members until the limit is met. */
  method ScanPage(rows: seq<Membership>, tenant: string, users: seq<User>, page: nat, limit: nat, entries0: seq<Entry>)
    returns (entries: seq<Entry>)
    requires OnePerUser(rows) && page >= 1 && (page - 1) * PAGE_SIZE <= |users|
    requires entries0 == Joins(rows, tenant, users, (page - 1) * PAGE_SIZE) && |entries0| < limit
    ensures var all := Joins(rows, tenant, users, page * PAGE_SIZE); entries == all[..Min(limit, |all|)]
  {
    hide OnePerUser, Joined, Serves;
    var here := UserPage(users, page);
    var byUser := MembersOf(rows, tenant, here);
    entries := entries0;
    ghost var start := (page - 1) * PAGE_SIZE;
    assert page * PAGE_SIZE == start + PAGE_SIZE;
    var i := 0;
    while i < |here|
      invariant 0 <= i <= |here|
      invariant entries == Joined(rows, tenant, users[..start + i]) && |entries| < limit
    {
      var user := here[i];
      assert user == users[start + i] && Serves(rows, tenant, byUser, here[i].id);
      JoinedServed(rows, tenant, users, start + i, byUser);
      i := i + 1;
      if user.id !in byUser {
        continue;
      }
      entries := entries + [Entry(byUser[user.id], user)];
      if |entries| == limit {
        JoinsGrow(rows, tenant, users, start + i, page * PAGE_SIZE);
        return;
      }
    }
  }

  /** The lookup gives the active membership of a user, if there is one. */
  predicate Serves(rows: seq<Membership>, tenant: string, byUser: map<string, Membership>, user: string) {
    if user in byUser then byUser[user] in rows && IsActive(byUser[user], tenant, user)
    else forall i | 0 <= i < |rows| :: !IsActive(rows[i], tenant, user)
  }

  lemma JoinedServed(rows: seq<Membership>, tenant: string, users: seq<User>, i: nat, byUser: map<string, Membership>)
    requires i < |users| && OnePerUser(rows) && Serves(rows, tenant, byUser, users[i].id)
    ensures Joined(rows, tenant, users[..i + 1])
         == Joined(rows, tenant, users[..i])
            + if users[i].id in byUser then [Entry(byUser[users[i].id], users[i])] else []
  {
    JoinedSnoc(rows, tenant, users, i, Get(byUser, users[i].id));
  }

  /** Collect the ids of a page, fetch their active memberships and index them by user. */
  method MembersOf(rows: seq<Membership>, tenant: string, here: seq<User>) returns (byUser: map<string, Membership>)
    ensures forall i | 0 <= i < |here| :: Serves(rows, tenant, byUser, here[i].id)
  {
    var ids: seq<string> := [];
    for i := 0 to |here|
      invariant |ids| == i && forall j | 0 <= j < i :: ids[j] == here[j].id
    {
      ids := ids + [here[i].id];
    }
    hide Find;
    var values := Find(rows, tenant, ids);
    byUser := IndexByUser(values);
    forall i | 0 <= i < |here| ensures Serves(rows, tenant, byUser, here[i].id) {
      assert ids[i] == here[i].id;
      if here[i].id !in byUser {
        forall k | 0 <= k < |rows| ensures !IsActive(rows[k], tenant, here[i].id) {
          assert rows[k] in rows;
        }
      }
    }
  }

  // ----- The answer in plain terms -----

  /** User number `i` of the directory is an active member of the tenant. */
  predicate Member(rows: seq<Membership>, tenant: string, users: seq<User>, i: nat)
    requires i < |users|
  {
    exists m | m in rows :: m.tenant == tenant && m.user == users[i].id && m.status == "active"
  }

  /** The entries are the users at the given positions, each with an active membership of the tenant; the positions
      are increasing, below `n`, and leave out no member. */
  ghost predicate Picks(rows: seq<Membership>, tenant: string, users: seq<User>, n: nat, entries: seq<Entry>, at: seq<nat>) {
    && |at| == |entries|
    && (forall i, j | 0 <= i < j < |at| :: at[i] < at[j])
    && (forall i | 0 <= i < |at| :: var e := entries[i];
          && at[i] < n && at[i] < |users| && e.user == users[at[i]]
          && e.membership in rows && e.membership.tenant == tenant && e.membership.user == e.user.id
          && e.membership.status == "active")
    && (forall p: nat | p < n && p < |users| && Member(rows, tenant, users, p) :: p in at)
  }

  lemma {:induction false} JoinedPicks(rows: seq<Membership>, tenant: string, users: seq<User>, n: nat) returns (at: seq<nat>)
    requires n <= |users|
    ensures Picks(rows, tenant, users, n, Joined(rows, tenant, users[..n]), at)
  {
    if n == 0 {
      at := [];
    } else {
      var before := JoinedPicks(rows, tenant, users, n - 1);
      assert users[..n][..n - 1] == users[..n - 1];
      var u := users[n - 1];
      if m :| m in rows && IsActive(m, tenant, u.id) {
        at := before + [n - 1];
        assert at[|before|] == n - 1;
        assert forall p | p in before :: p in at;
      } else {
        at := before;
      }
    }
  }

  /** The first `limit` active members among the first 500 users, in the order of the directory: the positions picked
      are increasing and below 500, and a member left out comes after `limit` others. */
  ghost predicate FirstMembers(rows: seq<Membership>, tenant: string, users: seq<User>, limit: nat, entries: seq<Entry>,
                               at: seq<nat>)
  {
    && |entries| <= limit && |at| == |entries|
    && (forall i, j | 0 <= i < j < |at| :: at[i] < at[j])
    && (forall i | 0 <= i < |at| :: var e := entries[i];
          && at[i] < 500 && at[i] < |users| && e.user == users[at[i]]
          && e.membership in rows && e.membership.tenant == tenant && e.membership.user == e.user.id
          && e.membership.status == "active")
    && (forall p: nat | p < 500 && p < |users| && Member(rows, tenant, users, p) && p !in at ::
          |entries| == limit && forall i | 0 <= i < |at| :: at[i] < p)
  }

  lemma {:induction false} ExpectedPicks(rows: seq<Membership>, tenant: string, users: seq<User>, limit: nat)
    returns (at: seq<nat>)
    ensures FirstMembers(rows, tenant, users, limit, Expected(rows, tenant, users, limit), at)
  {
    hide Joined, Member;
    var n := Min(500, |users|);
    var all := JoinedPicks(rows, tenant, users, n);
    var joined := Joined(rows, tenant, users[..n]);
    assert Expected(rows, tenant, users, limit) == joined[..Min(limit, |joined|)];
    at := all[..Min(limit, |all|)];
    forall p: nat | p < 500 && p < |users| && Member(rows, tenant, users, p) && p !in at
      ensures |at| == limit && forall i | 0 <= i < |at| :: at[i] < p
    {
      var k :| 0 <= k < |all| && all[k] == p;
      assert k >= |at|;
    }
  }

  /** Search. On a request it accepts, the answer is the first `limit` active members among the first five hundred
      users of the directory, in directory order, whichever early exit is taken; it fails exactly when it has to
      ask for a page it cannot get, with the error of the first such page. */
  method Search(users: seq<User>, down: set<nat>, rows: seq<Membership>, tenant: string, limit: int)
    returns (answer: Answer)
    requires OnePerUser(rows)
    ensures tenant == "" || limit < 1 || limit > 50 ==> answer == Failed(BadRequest)
    ensures tenant != "" && 1 <= limit <= 50 ==>
              if ReachesBroken(rows, tenant, users, down, limit) then
                exists page: nat ::
                  FirstBroken(rows, tenant, users, down, limit, page) && answer == Failed(FailureOf(down, page))
              else answer == Found(Expected(rows, tenant, users, limit))
    ensures answer.Found? ==> limit >= 0 && exists at :: FirstMembers(rows, tenant, users, limit, answer.entries, at)
  {
    hide OnePerUser, Joins, Joined, UserPage, FirstMembers, Expected;
    if tenant == "" || limit < 1 || limit > 50 {
      return Failed(BadRequest);
    }
    ghost var at := ExpectedPicks(rows, tenant, users, limit);
    var entries: seq<Entry> := [];
    var page := 1;
    NothingYet(rows, tenant, users);
    while page <= MAX_PAGES && |entries| < limit
      invariant 1 <= page <= MAX_PAGES + 1
      invariant (page - 1) * PAGE_SIZE <= |users|
      invariant page == 1 || page == MAX_PAGES + 1 || (page - 1) * PAGE_SIZE < |users| || |entries| >= limit
      invariant var all := Joins(rows, tenant, users, (page - 1) * PAGE_SIZE); entries == all[..Min(limit, |all|)]
      invariant forall p: nat | 1 <= p < page && Reached(rows, tenant, users, limit, p) :: !Breaks(users, down, p)
      decreases MAX_PAGES + 1 - page
    {
      assert Reached(rows, tenant, users, limit, page);
      if page in down {
        assert FirstBroken(rows, tenant, users, down, limit, page);
        return Failed(Unavailable);
      }
      var here := UserPage(users, page);
      if exists i | 0 <= i < |here| :: here[i].id == "" {
        assert FirstBroken(rows, tenant, users, down, limit, page);
        return Failed(BadRequest);
      }
      assert !Breaks(users, down, page);
      entries := ScanPage(rows, tenant, users, page, limit, entries);
      if |here| < PAGE_SIZE || page * PAGE_SIZE >= |users| {
        LastPage(rows, tenant, users, page);
        NoLaterPage(rows, tenant, users, down, limit, page);
        ExpectedIs(rows, tenant, users, limit);
        return Found(entries);
      }
      PageFull(users, page);
      page := page + 1;
    }
    EnoughByNow(rows, tenant, users, down, limit, page);
    return Found(entries);
  }

  lemma ExpectedIs(rows: seq<Membership>, tenant: string, users: seq<User>, limit: nat)
    ensures var all := Joins(rows, tenant, users, MAX_PAGES * PAGE_SIZE);
            Expected(rows, tenant, users, limit) == all[..Min(limit, |all|)]
  {
  }

  lemma NothingYet(rows: seq<Membership>, tenant: string, users: seq<User>)
    ensures Joins(rows, tenant, users, 0) == []
  {
    assert users[..0] == [];
  }

  /** A short page is the last one. */
  lemma LastPage(rows: seq<Membership>, tenant: string, users: seq<User>, page: nat)
    requires 1 <= page <= MAX_PAGES && (page - 1) * PAGE_SIZE <= |users|
    requires |UserPage(users, page)| < PAGE_SIZE || page * PAGE_SIZE >= |users|
    ensures page * PAGE_SIZE >= |users|
    ensures Joins(rows, tenant, users, page * PAGE_SIZE) == Joins(rows, tenant, users, MAX_PAGES * PAGE_SIZE)
  {
  }

  lemma PageFull(users: seq<User>, page: nat)
    requires page >= 1 && page * PAGE_SIZE < |users|
    ensures (page + 1 - 1) * PAGE_SIZE <= |users|
  {
  }

  lemma NoLaterPage(rows: seq<Membership>, tenant: string, users: seq<User>, down: set<nat>, limit: nat, page: nat)
    requires 1 <= page <= MAX_PAGES && page * PAGE_SIZE >= |users|
    requires forall p: nat | 1 <= p <= page && Reached(rows, tenant, users, limit, p) :: !Breaks(users, down, p)
    ensures !ReachesBroken(rows, tenant, users, down, limit)
  {
    hide Joins, Breaks;
    forall p: nat | Reached(rows, tenant, users, limit, p) ensures !Breaks(users, down, p) {
      assert p <= page;
    }
  }

  /** Leaving the loop with enough entries, or after the last page: nothing further would have been asked. */
  lemma EnoughByNow(rows: seq<Membership>, tenant: string, users: seq<User>, down: set<nat>, limit: nat, page: nat)
    requires 1 <= page <= MAX_PAGES + 1
    requires page == MAX_PAGES + 1 || |Joins(rows, tenant, users, (page - 1) * PAGE_SIZE)| >= limit
    requires forall p: nat | 1 <= p < page && Reached(rows, tenant, users, limit, p) :: !Breaks(users, down, p)
    ensures !ReachesBroken(rows, tenant, users, down, limit)
    ensures var all := Joins(rows, tenant, users, (page - 1) * PAGE_SIZE);
            all[..Min(limit, |all|)] == Expected(rows, tenant, users, limit)
  {
    hide Joins, Breaks;
    JoinsGrow(rows, tenant, users, (page - 1) * PAGE_SIZE, MAX_PAGES * PAGE_SIZE);
    forall p: nat | Reached(rows, tenant, users, limit, p) ensures !Breaks(users, down, p) {
      if p >= page {
        JoinsGrow(rows, tenant, users, (page - 1) * PAGE_SIZE, (p - 1) * PAGE_SIZE);
      }
    }
  }
}
