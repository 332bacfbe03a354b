/** Quotas over whole runs: the event log mirrors the table, and usage is conserved and bounded,
    however the reads and writes of SetQuota interleave with other sets and consumes. */
module QuotaRuns {
  import opened Text
  import opened Tables
  import opened Transactions
  import opened Effects
  import opened Runs

  predicate Concerns(event: Event, k: QuotaKey) {
    event.QuotaChanged? && (event.quota.tenant, event.quota.key) == k
  }

  predicate QuotaEvents(log: seq<Event>) {
    forall i | 0 <= i < |log| :: log[i].QuotaChanged?
  }

  /** The quota events of one key, in commit order. */
  function Log(outbox: seq<Event>, k: QuotaKey): (log: seq<Event>)
    ensures QuotaEvents(log) && forall i | 0 <= i < |log| :: Concerns(log[i], k)
  {
    if outbox == [] then []
    else
      var before := Log(outbox[..|outbox| - 1], k);
      var last := outbox[|outbox| - 1];
      if Concerns(last, k) then before + [last] else before
  }

  /** Everything the events say was consumed. */
  function Consumed(log: seq<Event>): int
    requires QuotaEvents(log)
  {
    if log == [] then 0 else Consumed(log[..|log| - 1]) + log[|log| - 1].delta
  }

  /** The largest limit any of the events put in force. */
  function LargestLimit(log: seq<Event>): int
    requires QuotaEvents(log)
  {
    if log == [] then 0
    else
      var before := LargestLimit(log[..|log| - 1]);
      var limit := log[|log| - 1].quota.limit;
      if limit > before then limit else before
  }

  /** A ledger: versions run 1, 2, 3, ...; usage is the running sum of the consumed amounts;
      a consume is positive and stays within the limit in force; setting a limit consumes nothing. */
  predicate Ledger(log: seq<Event>)
    requires QuotaEvents(log)
  {
    log == [] ||
    var before := log[..|log| - 1];
    var e := log[|log| - 1];
    && Ledger(before)
    && e.quota.version == |log|
    && e.quota.used == Consumed(before) + e.delta
    && e.quota.limit >= 0
    && ((e.change == "limit_set" && e.delta == 0)
        || (e.change == "consumed" && e.delta > 0 && before != [] && e.quota.used <= e.quota.limit
            && e.quota.limit == before[|before| - 1].quota.limit))
  }

  /** The log of a key is a ledger whose last entry is the row, and a key without a row has no log. */
  predicate Mirrored(db: Database, k: QuotaKey) {
    var log := Log(db.outbox, k);
    && Ledger(log)
    && (k in db.quotas <==> log != [])
    && (k in db.quotas ==> log[|log| - 1].quota == db.quotas[k])
  }

  ghost predicate AllMirrored(db: Database) {
    forall k :: Mirrored(db, k)
  }

  // ----- Conservation and bound, read off a ledger -----

  /** Usage equals everything consumed, and never exceeds the largest limit ever set. */
  lemma {:induction false} LedgerBounds(log: seq<Event>)
    requires QuotaEvents(log) && Ledger(log) && log != []
    ensures log[|log| - 1].quota.used == Consumed(log)
    ensures 0 <= log[|log| - 1].quota.used <= LargestLimit(log)
  {
    var before := log[..|log| - 1];
    if before != [] {
      LedgerBounds(before);
    }
  }

  /** Versions are exactly the positions. */
  lemma {:induction false} LedgerVersions(log: seq<Event>, i: nat)
    requires QuotaEvents(log) && Ledger(log) && i < |log|
    ensures log[i].quota.version == i + 1
    ensures log[i].change == "consumed" ==> log[i].quota.used <= log[i].quota.limit
  {
    if i < |log| - 1 {
      LedgerVersions(log[..|log| - 1], i);
    }
  }

  // ----- One transaction -----

  /** The write is: one key gets a row, and the same row is announced. */
  predicate Posts(a: Database, b: Database, k: QuotaKey, e: Event) {
    && e.QuotaChanged? && (e.quota.tenant, e.quota.key) == k
    && b.quotas == a.quotas[k := e.quota]
    && b.outbox == a.outbox + [e]
  }

  /** SetQuota announces exactly the row it leaves behind, although it built the event from an older read. */
  lemma SetQuotaPosts(seen: Option<Quota>, db: Database, tenant: string, key: string, limit: int, expected: int,
                      now: int, actor: string)
    requires SetQuota(seen, db, tenant, key, limit, expected, now, actor).Commit?
    requires var k := (tenant, key);
             && (k in db.quotas ==> (db.quotas[k].tenant, db.quotas[k].key) == k)
             && (seen.Some? ==> k in db.quotas && (seen.value.version == db.quotas[k].version ==> seen.value == db.quotas[k]))
    ensures var k := (tenant, key);
            var db' := SetQuota(seen, db, tenant, key, limit, expected, now, actor).db;
            && k in db'.quotas && Posts(db, db', k, QuotaChanged(db'.quotas[k], 0, "limit_set"))
            && db'.quotas[k].limit == limit >= 0
            && (k !in db.quotas ==> db'.quotas[k].version == 1 && db'.quotas[k].used == 0)
            && (k in db.quotas ==> db'.quotas[k].version == db.quotas[k].version + 1
                                   && db'.quotas[k].used == db.quotas[k].used)
  {
  }

  lemma ConsumeQuotaPosts(db: Database, tenant: string, key: string, amount: int, now: int, actor: string)
    requires ConsumeQuota(db, tenant, key, amount, now, actor).Commit?
    requires var k := (tenant, key); k in db.quotas ==> (db.quotas[k].tenant, db.quotas[k].key) == k
    ensures var k := (tenant, key);
            var db' := ConsumeQuota(db, tenant, key, amount, now, actor).db;
            && k in db.quotas && k in db'.quotas && Posts(db, db', k, QuotaChanged(db'.quotas[k], amount, "consumed"))
            && amount > 0 && db'.quotas[k].used == db.quotas[k].used + amount <= db'.quotas[k].limit
            && db'.quotas[k].limit == db.quotas[k].limit && db'.quotas[k].version == db.quotas[k].version + 1
  {
  }

  // ----- Keeping the mirror -----

  lemma LogSnoc(outbox: seq<Event>, e: Event, k: QuotaKey)
    ensures Log(outbox + [e], k) == if Concerns(e, k) then Log(outbox, k) + [e] else Log(outbox, k)
  {
    assert (outbox + [e])[..|outbox|] == outbox;
  }

  lemma LedgerSnoc(log: seq<Event>, e: Event)
    requires QuotaEvents(log) && Ledger(log) && e.QuotaChanged? && e.quota.limit >= 0
    requires log != [] ==> var row := log[|log| - 1].quota;
               e.quota.version == row.version + 1 && e.quota.used == row.used + e.delta
    requires log == [] ==> e.quota.version == 1 && e.quota.used == e.delta
    requires (e.change == "limit_set" && e.delta == 0)
          || (e.change == "consumed" && e.delta > 0 && log != [] && e.quota.used <= e.quota.limit
              && e.quota.limit == log[|log| - 1].quota.limit)
    ensures Ledger(log + [e])
  {
    assert (log + [e])[..|log|] == log;
    if log != [] {
      LedgerBounds(log);
      LedgerVersions(log, |log| - 1);
    }
  }

  lemma PostKeepsMirror(a: Database, b: Database, k: QuotaKey, e: Event, j: QuotaKey)
    requires Mirrored(a, j) && Posts(a, b, k, e)
    requires j == k ==> Ledger(Log(a.outbox, k) + [e])
    ensures Mirrored(b, j)
  {
    hide Ledger, Log;
    LogSnoc(a.outbox, e, j);
  }

  lemma KeysOfRows(db: Database, k: QuotaKey)
    requires Mirrored(db, k) && k in db.quotas
    ensures (db.quotas[k].tenant, db.quotas[k].key) == k
  {
    hide Ledger;
  }

  lemma SetOutcome(h: History, step: Step)
    requires step.request.ReqSetQuota?
    ensures var r := step.request;
            Perform(h, step) == SetQuota(Get(At(h, step.first).quotas, (r.tenant, r.key)), Now(h),
                                         r.tenant, r.key, r.limit, r.version, step.now, step.actor)
  {
    hide At, Now, Get, CreateTenant, UpdateTenant, CreateUnit, UpdateUnit, AddMembership, UpdateMembership, CreateInvitation,
      AcceptInvitation, RevokeInvitation, CreateGroup, UpdateGroup, AddGroupMember, RemoveGroupMember, SetQuota, ConsumeQuota;
  }

  lemma ConsumeOutcome(h: History, step: Step)
    requires step.request.ReqConsumeQuota?
    ensures var r := step.request;
            Perform(h, step) == ConsumeQuota(Now(h), r.tenant, r.key, r.amount, step.now, step.actor)
  {
    hide At, Now, Get, CreateTenant, UpdateTenant, CreateUnit, UpdateUnit, AddMembership, UpdateMembership, CreateInvitation,
      AcceptInvitation, RevokeInvitation, CreateGroup, UpdateGroup, AddGroupMember, RemoveGroupMember, SetQuota, ConsumeQuota;
  }

  lemma SetStep(h: History, step: Step)
    requires Coherent(h) && AllMirrored(Now(h)) && step.request.ReqSetQuota?
    ensures AllMirrored(Next(h, step))
  {
    hide Perform, SetQuota, Ledger, Log, Coherent;
    var r := step.request;
    var (db, k) := (Now(h), (r.tenant, r.key));
    var seen := Get(At(h, step.first).quotas, k);
    var outcome := SetQuota(seen, db, r.tenant, r.key, r.limit, r.version, step.now, step.actor);
    SetOutcome(h, step);
    if outcome.Commit? {
      assert Mirrored(db, k);
      if seen.Some? { EarlierQuota(h, step.first, k); }
      if k in db.quotas { KeysOfRows(db, k); }
      SetQuotaPosts(seen, db, r.tenant, r.key, r.limit, r.version, step.now, step.actor);
      var e := QuotaChanged(outcome.db.quotas[k], 0, "limit_set");
      LedgerSnoc(Log(db.outbox, k), e);
      forall j ensures Mirrored(outcome.db, j) {
        assert Mirrored(db, j);
        PostKeepsMirror(db, outcome.db, k, e, j);
      }
    }
  }

  lemma EarlierQuota(h: History, moment: nat, k: QuotaKey)
    requires Coherent(h) && k in At(h, moment).quotas
    ensures k in Now(h).quotas
    ensures At(h, moment).quotas[k].version == Now(h).quotas[k].version ==> At(h, moment).quotas[k] == Now(h).quotas[k]
  {
    var i := if moment < |h| then moment else |h| - 1;
    assert Evolves(h[i], h[|h| - 1]);
  }

  lemma ConsumeStep(h: History, step: Step)
    requires AllMirrored(Now(h)) && step.request.ReqConsumeQuota?
    ensures AllMirrored(Next(h, step))
  {
    hide Perform, ConsumeQuota, Ledger, Log;
    var r := step.request;
    var (db, k) := (Now(h), (r.tenant, r.key));
    var outcome := ConsumeQuota(db, r.tenant, r.key, r.amount, step.now, step.actor);
    ConsumeOutcome(h, step);
    if outcome.Commit? {
      assert Mirrored(db, k);
      if k in db.quotas { KeysOfRows(db, k); }
      ConsumeQuotaPosts(db, r.tenant, r.key, r.amount, step.now, step.actor);
      var e := QuotaChanged(outcome.db.quotas[k], r.amount, "consumed");
      LedgerLimits(Log(db.outbox, k));
      LedgerSnoc(Log(db.outbox, k), e);
      forall j ensures Mirrored(outcome.db, j) {
        assert Mirrored(db, j);
        PostKeepsMirror(db, outcome.db, k, e, j);
      }
    }
  }

  lemma LedgerLimits(log: seq<Event>)
    requires QuotaEvents(log) && Ledger(log) && log != []
    ensures log[|log| - 1].quota.limit >= 0
  {
  }

  lemma OtherStep(h: History, step: Step)
    requires AllMirrored(Now(h)) && FamilyOf(step.request) != Quotas
    ensures AllMirrored(Next(h, step))
  {
    hide Perform, Evolves, Keyed, Ledger, Log;
    StepEffect(h, step);
    var (a, b) := (Now(h), Next(h, step));
    if Perform(h, step).Commit? {
      var e := b.outbox[|a.outbox|];
      assert b.outbox == a.outbox + [e] && !e.QuotaChanged? && b.quotas == a.quotas;
      forall j ensures Mirrored(b, j) {
        assert Mirrored(a, j);
        LogSnoc(a.outbox, e, j);
      }
    }
  }

  lemma StepMirrored(h: History, step: Step)
    requires Coherent(h) && AllMirrored(Now(h))
    ensures AllMirrored(Next(h, step))
  {
    hide Next, AllMirrored, Coherent;
    if step.request.ReqSetQuota? {
      SetStep(h, step);
    } else if step.request.ReqConsumeQuota? {
      ConsumeStep(h, step);
    } else {
      OtherStep(h, step);
    }
  }

  // ----- Whole runs -----

  /** In every state of every run the quota events of each key are a ledger that ends with the row. */
  lemma {:induction false} RunMirrored(steps: seq<Step>)
    ensures forall i | 0 <= i <= |steps| :: AllMirrored(Execute(steps)[i])
  {
    hide Next, AllMirrored, Coherent;
    if steps == [] {
      EmptyMirrored();
    } else {
      var before := steps[..|steps| - 1];
      RunMirrored(before);
      RunCoherent(before);
      assert AllMirrored(Execute(before)[|before|]);
      StepMirrored(Execute(before), steps[|steps| - 1]);
    }
  }

  lemma EmptyMirrored()
    ensures AllMirrored(EMPTY)
  {
    forall k ensures Mirrored(EMPTY, k) {
      assert Log(EMPTY.outbox, k) == [];
    }
  }

  /** The whole story of one key over any run: its events carry versions 1, 2, 3, ..., the last of them is the
      row, usage is the sum of accepted amounts, every accepted consume was within the limit in force, and
      usage never exceeds the largest limit ever set. */
  lemma {:induction false} QuotaStory(steps: seq<Step>, moment: nat, k: QuotaKey)
    requires moment <= |steps|
    ensures var db := Execute(steps)[moment];
            var log := Log(db.outbox, k);
            && (forall i | 0 <= i < |log| :: log[i].quota.version == i + 1)
            && (forall i | 0 <= i < |log| && log[i].change == "consumed" :: log[i].quota.used <= log[i].quota.limit)
            && (k in db.quotas <==> log != [])
            && (k in db.quotas ==>
                  && db.quotas[k] == log[|log| - 1].quota
                  && db.quotas[k].used == Consumed(log)
                  && db.quotas[k].used <= LargestLimit(log))
  {
    hide Execute, Ledger;
    RunMirrored(steps);
    var db := Execute(steps)[moment];
    var log := Log(db.outbox, k);
    assert Mirrored(db, k);
    forall i | 0 <= i < |log|
      ensures log[i].quota.version == i + 1
      ensures log[i].change == "consumed" ==> log[i].quota.used <= log[i].quota.limit
    {
      LedgerVersions(log, i);
    }
    if log != [] {
      LedgerBounds(log);
    }
  }

  /** Every event of the log is the row as it stood when the event was committed. */
  lemma {:induction false} EventIsRowAtCommit(steps: seq<Step>, k: QuotaKey, i: nat) returns (moment: nat)
    requires i < |Log(Now(Execute(steps)).outbox, k)|
    ensures moment <= |steps| && k in Execute(steps)[moment].quotas
    ensures Execute(steps)[moment].quotas[k] == Log(Now(Execute(steps)).outbox, k)[i].quota
    decreases |steps|
  {
    hide Next, Ledger;
    RunMirrored(steps);
    var h := Execute(steps);
    var db := h[|steps|];
    var log := Log(db.outbox, k);
    assert Mirrored(db, k);
    if i == |log| - 1 {
      moment := |steps|;
    } else {
      assert steps != [];
      var before := steps[..|steps| - 1];
      var g := Execute(before);
      LogGrows(g, steps[|steps| - 1], k);
      moment := EventIsRowAtCommit(before, k, i);
    }
  }

  lemma LogGrows(h: History, step: Step, k: QuotaKey)
    ensures var (a, b) := (Log(Now(h).outbox, k), Log(Next(h, step).outbox, k));
            a <= b && |b| <= |a| + 1
  {
    hide Perform, Evolves, Keyed;
    StepEffect(h, step);
    var (a, b) := (Now(h), Next(h, step));
    if Perform(h, step).Commit? {
      var e := b.outbox[|a.outbox|];
      assert b.outbox == a.outbox + [e];
      LogSnoc(a.outbox, e, k);
    }
  }

  // ----- Conservation, counted on the requests -----

  predicate SetsQuota(h: History, step: Step, k: QuotaKey) {
    step.request.ReqSetQuota? && (step.request.tenant, step.request.key) == k && Perform(h, step).Commit?
  }

  predicate Consumes(h: History, step: Step, k: QuotaKey) {
    step.request.ReqConsumeQuota? && (step.request.tenant, step.request.key) == k && Perform(h, step).Commit?
  }

  /** The sum of the amounts of all consumes of the key that were accepted. */
  function AcceptedAmounts(steps: seq<Step>, k: QuotaKey): int {
    if steps == [] then 0
    else
      var before := steps[..|steps| - 1];
      var last := steps[|steps| - 1];
      AcceptedAmounts(before, k) + if Consumes(Execute(before), last, k) then last.request.amount else 0
  }

  /** The largest limit any accepted request set for the key. */
  function LargestSet(steps: seq<Step>, k: QuotaKey): int {
    if steps == [] then 0
    else
      var before := steps[..|steps| - 1];
      var last := steps[|steps| - 1];
      var largest := LargestSet(before, k);
      if SetsQuota(Execute(before), last, k) && last.request.limit > largest then last.request.limit else largest
  }

  /** What one step does to one quota row. */
  predicate RowStep(a: Database, b: Database, k: QuotaKey, sets: Option<int>, consumes: Option<int>) {
    if sets.Some? then
      k in b.quotas && b.quotas[k].limit == sets.value
      && b.quotas[k].used == if k in a.quotas then a.quotas[k].used else 0
    else if consumes.Some? then
      k in a.quotas && k in b.quotas && b.quotas[k].used == a.quotas[k].used + consumes.value
      && b.quotas[k].used <= b.quotas[k].limit == a.quotas[k].limit
    else Get(b.quotas, k) == Get(a.quotas, k)
  }

  lemma SetRow(h: History, step: Step, k: QuotaKey)
    requires Coherent(h) && AllMirrored(Now(h)) && step.request.ReqSetQuota?
    ensures RowStep(Now(h), Next(h, step), k, if SetsQuota(h, step, k) then Some(step.request.limit) else None, None)
  {
    hide Perform, SetQuota, Ledger, Log, Coherent;
    var r := step.request;
    var (db, j) := (Now(h), (r.tenant, r.key));
    var seen := Get(At(h, step.first).quotas, j);
    SetOutcome(h, step);
    if Perform(h, step).Commit? {
      assert Mirrored(db, j);
      if seen.Some? { EarlierQuota(h, step.first, j); }
      if j in db.quotas { KeysOfRows(db, j); }
      SetQuotaPosts(seen, db, r.tenant, r.key, r.limit, r.version, step.now, step.actor);
    }
  }

  lemma ConsumeRow(h: History, step: Step, k: QuotaKey)
    requires AllMirrored(Now(h)) && step.request.ReqConsumeQuota?
    ensures RowStep(Now(h), Next(h, step), k, None, if Consumes(h, step, k) then Some(step.request.amount) else None)
  {
    hide Perform, ConsumeQuota, Ledger, Log;
    var r := step.request;
    var (db, j) := (Now(h), (r.tenant, r.key));
    ConsumeOutcome(h, step);
    if Perform(h, step).Commit? {
      assert Mirrored(db, j);
      if j in db.quotas { KeysOfRows(db, j); }
      ConsumeQuotaPosts(db, r.tenant, r.key, r.amount, step.now, step.actor);
    }
  }

  lemma OtherRow(h: History, step: Step)
    requires FamilyOf(step.request) != Quotas
    ensures Next(h, step).quotas == Now(h).quotas
  {
    hide Perform, Evolves, Keyed;
    StepEffect(h, step);
  }

  /** Conservation and bound over every run, stated on requests alone: usage is the sum of the accepted
      amounts, and never exceeds the largest limit ever set. */
  lemma {:induction false} UsageConserved(steps: seq<Step>, k: QuotaKey)
    ensures var db := Now(Execute(steps));
            if k in db.quotas then
              && db.quotas[k].used == AcceptedAmounts(steps, k)
              && db.quotas[k].used <= LargestSet(steps, k)
              && db.quotas[k].limit <= LargestSet(steps, k)
            else AcceptedAmounts(steps, k) == 0
  {
    hide Next, AllMirrored, Coherent, SetsQuota, Consumes;
    if steps != [] {
      var before := steps[..|steps| - 1];
      var last := steps[|steps| - 1];
      var h := Execute(before);
      UsageConserved(before, k);
      RunMirrored(before);
      RunCoherent(before);
      assert AllMirrored(h[|before|]);
      LargestNotNegative(before, k);
      OnlyTheirOwn(h, last, k);
      if last.request.ReqSetQuota? {
        SetRow(h, last, k);
      } else if last.request.ReqConsumeQuota? {
        ConsumeRow(h, last, k);
      } else {
        OtherRow(h, last);
      }
    }
  }

  lemma OnlyTheirOwn(h: History, step: Step, k: QuotaKey)
    ensures SetsQuota(h, step, k) ==> step.request.ReqSetQuota?
    ensures Consumes(h, step, k) ==> step.request.ReqConsumeQuota?
  {
  }

  lemma {:induction false} LargestNotNegative(steps: seq<Step>, k: QuotaKey)
    ensures LargestSet(steps, k) >= 0
  {
    if steps != [] {
      LargestNotNegative(steps[..|steps| - 1], k);
    }
  }
}
