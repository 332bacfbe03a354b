# Tenant domain: a verified model

This project models the tenant domain of the service: seven tables and an outbox changed by fifteen
mutating operations, and the read-side algorithms that rely on what those operations keep. The command
`dafny verify dfyconfig.toml` checks all of it.

**Organization forest** (`Forest`, `Moves`, `ForestRuns`). Each unit stores its parent's id and, redundantly, a path
`/root/.../self/`. The invariant says that parent links form a forest inside each tenant and that every path spells
out the links. Moves repair descendants with one prefix rewrite; the project proves that the rewrite touches exactly the
descendants by parent links and restores agreement, that the prefix guard is exactly a cycle test, and when runs keep
the invariant.

**Runs** (`Transactions`, `Effects`, `Runs`). A run is a list of requests in commit order. Each request names, for each row it
reads, the moment at which it read it: any earlier moment, chosen freely, with no lock assumed. Its write is atomic at its own
position. So every statement about runs covers every interleaving of reads with other clients' writes. On this rest the results on
quotas (`QuotaRuns`), invitations (`InvitationRuns`), references between tenants' rows (`Consistency`) and the outbox.

**Requests** (`Promises`, `RequestLaws`). For each operation, stated on tables and request alone: when it commits on fresh reads, how
it is refused, what every commit has checked whatever the age of its reads, and which columns it leaves and announces.

**Store** (`StoreModel`). The same operations as the code performs them: guards, then statements inside a transaction
that commits or rolls back. Each is proved to implement its one-step specification in `Transactions`.

**Reading** (`Listing`, `Trees`, `TreeTheorems`, `TreeLimits`, `TreeBuilding`, `Ancestors`, `AncestorTheorems`, `DictionaryProvider`,
`MembershipDirectory`). Sorting, paging, bounded tree building, both ancestor searches, scope resolution, the lazy-children query
and the directory join, each as the loops of the code proved against a specification, and then theorems about those
specifications.

Two properties one might expect are false of the code, and are stated with their exact condition:

- The forest invariant does not hold in all runs. Creating a unit takes no lock, so a move may change the parent's path between
  the create's read and its commit; the new row then stores an outdated path (`Counterexamples.OvertakenCreateBreaksForest`).
  `ForestRuns.RunForestIff` says exactly which runs keep the invariant, `ForestRuns.LockedRunForestIff` what the lock contributes.
- An invitation is not single use in all runs. A revoke checks the status of the row it read but guards its write with the version
  its caller supplied; a caller who names the version that a concurrent acceptance produces overwrites the acceptance
  (`Counterexamples.GuessedRevokeUndoesAcceptance`). `InvitationRuns.RunSingleUseIff` gives the exact condition.

## Assumptions

- Ids are non-empty strings without `/`, `%`, `_` and `\`. The text form of section 4 of RFC 9562 is such a string;
  equal length is not needed.
- Transactions are atomic, and rows read outside a transaction are rows of some committed state.
- Strings are compared by code points.

## Model

| member | source | states |
|---|---|---|
| `Text.LikePrefix` | internal/tenant/repository.go:381-394 | `path LIKE p%`, with SQL wildcard semantics spelled out, selects exactly the strings with prefix `p`, for every `p` free of wildcards |
| `Forest.LinkedIsForest` | internal/tenant/service.go:416-427 | the global forest invariant (finite climb to a root inside one tenant, stored path = the ids along that climb) holds if and only if every row locally agrees with the row its parent link names |
| `Forest.LinkedIsAcyclic` | internal/tenant/service.go:549-552 | in a forest no positive number of parent steps leads from a unit back to itself |
| `Forest.PrefixIsAncestor` | internal/tenant/service.go:549 | the path-prefix test is exactly the ancestor-or-self relation of the parent links |
| `Forest.LinksDeterminePaths` | internal/tenant/repository.go:372-395 | two forests with equal parent links store equal paths everywhere |
| `Moves.MoveTouchesDescendants` | internal/tenant/repository.go:372-395 | the single rewrite changes exactly the proper descendants (by parent links): new path, version plus one, audit stamp; the moved row is relocated; every other row is untouched, and none but the unit changes if its path stays |
| `Moves.MoveKeepsForest` | internal/tenant/repository.go:372-395 | after both UPDATE statements every stored path is again the one its parent links spell out: the prefix rewrite refines recomputation |
| `Moves.GuardIsCycleTest` | internal/tenant/service.go:549-551 | the prefix guard rejects exactly the moves after which the parent links would contain a cycle, moving under itself included |
| `Moves.CreateKeepsForestIff` | internal/tenant/service.go:401-440 | a committed create, however old its read of the parent, leaves a forest if and only if the parent has not changed its path since that read |
| `Moves.MoveKeepsForestIff` | internal/tenant/service.go:532-567 | a committed move, however old its read of the new parent, leaves a forest if and only if that parent has not changed its path since the read |
| `Moves.PathConstraintNeverFires` | migrations/postgres/000002_tenant_domain.up.sql:29 | in a forest neither UPDATE of an admissible move violates UNIQUE (tenant_id, path), not even between the two statements |
| `Moves.MoveCommits` | internal/tenant/service.go:521-567 | on fresh reads a well-formed move commits if and only if the version is current, the parent is active in the same tenant, and the parent is not at or below the unit |
| `Moves.MoveRoundTrip` | internal/tenant/repository.go:372-395 | moving a unit away and back under its old parent restores every parent link and every path; other rows differ at most in version and audit |
| `Moves.MoveRoundTripCommits` | internal/tenant/service.go:540-567 | both moves of the round trip commit when made on fresh reads under active parents, and end with every link and path restored |
| `Effects.CreateTenantEffect` | internal/tenant/service.go:121-145 | a commit writes only tenants and memberships, appends exactly one event of that kind, deletes no row, changes no row's identity or tenant, and no versioned row without its version; without a commit tables and outbox are as before |
| `Effects.UpdateTenantEffect` | internal/tenant/service.go:155-184 | a commit writes only tenants and memberships, appends exactly one event of that kind, deletes no row, changes no row's identity or tenant, and no versioned row without its version; without a commit tables and outbox are as before |
| `Effects.CreateUnitEffect` | internal/tenant/service.go:401-440 | a commit writes only units, appends exactly one event of that kind, deletes no row, changes no row's identity or tenant, and no versioned row without its version; without a commit tables and outbox are as before |
| `Effects.UpdateUnitEffect` | internal/tenant/service.go:521-580 | a commit writes only units, appends exactly one event of that kind, deletes no row, changes no row's identity or tenant, and no versioned row without its version; without a commit tables and outbox are as before |
| `Effects.AddMembershipEffect` | internal/tenant/service.go:186-213 | a commit writes only memberships, appends exactly one event of that kind, deletes no row, changes no row's identity or tenant, and no versioned row without its version; without a commit tables and outbox are as before |
| `Effects.UpdateMembershipEffect` | internal/tenant/service.go:352-385 | a commit writes only memberships, appends exactly one event of that kind, deletes no row, changes no row's identity or tenant, and no versioned row without its version; without a commit tables and outbox are as before |
| `Effects.CreateInvitationEffect` | internal/tenant/collaboration_service.go:23-58 | a commit writes only invitations and memberships, appends exactly one event of that kind, deletes no row, changes no row's identity or tenant, and no versioned row without its version; without a commit tables and outbox are as before |
| `Effects.AcceptInvitationEffect` | internal/tenant/collaboration_service.go:60-109 | a commit writes only invitations and memberships, appends exactly one event of that kind, deletes no row, changes no row's identity or tenant, and no versioned row without its version; without a commit tables and outbox are as before |
| `Effects.RevokeInvitationEffect` | internal/tenant/collaboration_service.go:111-146 | a commit writes only invitations and memberships, appends exactly one event of that kind, deletes no row, changes no row's identity or tenant, and no versioned row without its version; without a commit tables and outbox are as before |
| `Effects.CreateGroupEffect` | internal/tenant/collaboration_service.go:180-204 | a commit writes only groups and group members, appends exactly one event of that kind, deletes no row, changes no row's identity or tenant, and no versioned row without its version; without a commit tables and outbox are as before |
| `Effects.UpdateGroupEffect` | internal/tenant/collaboration_service.go:205-237 | a commit writes only groups and group members, appends exactly one event of that kind, deletes no row, changes no row's identity or tenant, and no versioned row without its version; without a commit tables and outbox are as before |
| `Effects.AddGroupMemberEffect` | internal/tenant/collaboration_service.go:280-324 | a commit writes only groups and group members, appends exactly one event of that kind, deletes no row, changes no row's identity or tenant, and no versioned row without its version; without a commit tables and outbox are as before; adding a member already active changes nothing |
| `Effects.RemoveGroupMemberEffect` | internal/tenant/collaboration_service.go:389-417 | a commit writes only groups and group members, appends exactly one event of that kind, deletes no row, changes no row's identity or tenant, and no versioned row without its version; without a commit tables and outbox are as before |
| `Effects.SetQuotaEffect` | internal/tenant/collaboration_service.go:446-495 | a commit writes only quotas, appends exactly one event of that kind, deletes no row, changes no row's identity or tenant, and no versioned row without its version; without a commit tables and outbox are as before |
| `Effects.ConsumeQuotaEffect` | internal/tenant/collaboration_service.go:496-534 | a commit writes only quotas, appends exactly one event of that kind, deletes no row, changes no row's identity or tenant, and no versioned row without its version; without a commit tables and outbox are as before; a denied consume changes nothing |
| `Effects.MoveCommitFacts` | internal/tenant/service.go:540-567 | whatever rows were read, a committed move was made at the version stored now, under a parent that exists and was read in the same tenant, and wrote exactly the two UPDATEs |
| `Text.LessIsLexicographic` | internal/tenant/dictionary_provider.go:181-198 | the string order of the sort is the lexicographic one: at the first difference the smaller character, or the end of the string, comes first |
| `Promises.CreateTenantKeeps` | internal/tenant/service.go:121-145 | commits exactly when code, name and owner are given and id, code, membership id and (tenant, owner) are free; refusals named; the tenant and owner rows column by column, and the event carrying both |
| `Promises.UpdateTenantKeeps` | internal/tenant/service.go:155-184 | on a fresh read commits exactly for a valid request at the stored version; refusals named; name and status are written, version plus one, the rest kept, and the event names the status read and the new one |
| `Promises.CreateUnitAnswers` | internal/tenant/service.go:401-440 | on fresh reads of a forest commits if and only if tenant, code and name are given, the tenant exists, the parent is empty or active in the tenant, the code is free in the tenant and the id is new; each refusal named exactly |
| `Promises.CreateUnitWrites` | internal/tenant/service.go:428-438 | whatever was read, a commit adds one row with the given tenant, parent, code and name, active, at version 1, and announces that row |
| `Promises.UpdateUnitAnswers` | internal/tenant/service.go:521-555 | for any input on fresh reads of a forest, when a move commits and with which error it is refused |
| `Promises.UpdateUnitWrites` | internal/tenant/service.go:556-567 | the moved row gets the given parent, name and status and one more version and keeps id, tenant and code; the event carries that row with the version from before the increment, and the old parent |
| `Promises.AddMembershipKeeps` | internal/tenant/service.go:186-213 | on a fresh read commits exactly when tenant and user are given, the primary unit is empty or active in the tenant, id and (tenant, user) are free and the tenant exists; refusals named; row and event column by column |
| `Promises.UpdateMembershipKeeps` | internal/tenant/service.go:352-385 | on fresh reads commits exactly for a valid status, a primary unit empty or active in the row's tenant, and the stored version; status and primary unit are written, tenant and user kept, and the event names both statuses |
| `Promises.CreateInvitationKeeps` | internal/tenant/collaboration_service.go:23-58 | commits exactly for a lifetime of more than zero and at most thirty days in an existing tenant; the row is pending at version 1 with its deadline, and announced |
| `Promises.AcceptInvitationKeeps` | internal/tenant/collaboration_service.go:60-109 | on a fresh read commits if and only if a user is given, the row is pending, the time is before the deadline, the user is not yet a member, the membership id is new and the tenant exists; refusals named; for reads of any age a commit found the stored row pending and in time, and wrote exactly the settled row, the member and the event |
| `Promises.RevokeInvitationKeeps` | internal/tenant/collaboration_service.go:111-146 | on a fresh read commits exactly for a pending row at the given version; refusals named; the row is revoked and announced as stored |
| `Promises.CreateGroupKeeps` | internal/tenant/collaboration_service.go:180-204 | commits exactly when tenant, code and name are given, id and (tenant, code) are free and the tenant exists; row and event column by column |
| `Promises.UpdateGroupKeeps` | internal/tenant/collaboration_service.go:205-237 | on a fresh read commits exactly for a valid request at the stored version; name and status are written, and the event equals the stored row even when built from an older read |
| `Promises.AddGroupMemberKeeps` | internal/tenant/collaboration_service.go:280-324 | on fresh reads commits exactly when group and membership are active in one tenant and the member is not active already, in which case nothing changes; a new row or the reactivated old one, column by column |
| `Promises.RemoveGroupMemberKeeps` | internal/tenant/collaboration_service.go:389-417 | on fresh reads commits exactly at the stored version; the row becomes removed and keeps its identity |
| `Promises.SetQuotaKeeps` | internal/tenant/collaboration_service.go:446-495 | on a fresh read commits exactly when the version is the stored one, or 0 for a new key of an existing tenant; the limit is written, usage kept or zero, and the event equals the row |
| `Promises.ConsumeQuotaKeeps` | internal/tenant/repository.go:581-599 | commits if and only if the key exists and used plus amount is at most the limit, is denied without a write exactly when it exceeds it; the row and its event column by column |
| `RequestLaws.StepAnswers` | internal/tenant/service.go:401-440 | the acceptance laws above for requests as they occur in runs: on fresh reads of a forest every one of the fifteen requests commits, or is refused with its error, exactly as stated on the tables |
| `RequestLaws.StepWrites` | internal/database/transaction.go:17-35 | for reads of any age in any run: a committed request leaves exactly the stated columns of its row and announces them |
| `RequestLaws.StepChecks` | internal/tenant/repository.go:608-620 | for reads of any age: a request that commits has found in its reads what its guards ask for, and the row it updates at the version it was given or had read |
| `RequestLaws.AcceptedInTime` | internal/tenant/collaboration_service.go:79-81 | in every run every committed acceptance came before the deadline of the stored row, found it pending and made its user an active member; the deadline is the same in every state of the run |
| `RequestLaws.ConsumeAcceptedIff` | internal/tenant/repository.go:581-592 | at any moment of any run a well-formed consume of an existing quota is accepted if and only if the amount fits under the limit; otherwise nothing changes |
| `Runs.StepEffect` | internal/database/transaction.go:17-35 | the effects above for any request performed on reads of any age |
| `Runs.RunCoherent` | internal/tenant/repository.go:608-620 | in every run, between any two moments: rows stay, keep identity and tenant, and a unit, invitation or quota row with an unchanged version is unchanged; this is what the version guards rely on |
| `Runs.OutboxCountsCommits` | internal/database/transaction.go:17-35 | after any run the outbox holds exactly one event per committed request |
| `ForestRuns.StepForestIff` | internal/tenant/service.go:401-440 | from a forest, any request with reads of any age leads to a forest if and only if it does not commit a unit under a parent whose path changed since it was read |
| `ForestRuns.RunForestIff` | internal/tenant/service.go:401-440 | all states of a run are forests if and only if no create or move of the run was overtaken in that sense |
| `ForestRuns.OnlyMovesChangePaths` | internal/tenant/repository.go:381-394 | the path of an existing unit changes only in a committed move inside its own tenant |
| `ForestRuns.QuietRunKeepsForest` | internal/tenant/service.go:532-567 | a run in which no move commits in the tenant between a unit write's read of its parent and its commit (atomic creates and moves in particular) keeps the forest invariant |
| `ForestRuns.LockedRunForestIff` | internal/tenant/service.go:601-613 | if the per-tenant lock makes moves of a tenant exclusive, a run keeps the forest if and only if no create, which takes no lock, is overtaken by a move |
| `Counterexamples.OvertakenCreateBreaksForest` | internal/tenant/service.go:416-438 | a concrete run of five requests whose last create was overtaken by a move: the forest invariant fails |
| `Consistency.RunConsistent` | internal/tenant/service.go:387-399 | in every state of every run a unit's parent, a membership's primary unit, and a group member's group and membership exist and carry the row's own tenant |
| `QuotaRuns.SetQuotaPosts` | internal/tenant/collaboration_service.go:446-495 | the event built from an earlier read equals the row the transaction leaves behind; version one and usage zero for a new key, version plus one and usage kept otherwise |
| `QuotaRuns.ConsumeQuotaPosts` | internal/tenant/repository.go:581-599 | an accepted consume adds the amount, stays within the limit in force, bumps the version and announces the row as it now stands |
| `QuotaRuns.LedgerBounds` | internal/tenant/repository.go:576-599 | in any ledger of quota events the last usage is the sum of all amounts and at most the largest limit |
| `QuotaRuns.RunMirrored` | internal/tenant/collaboration_service.go:446-534 | in every state of every run, under any interleaving, the events of each key form a ledger (versions 1, 2, 3, ...) whose last entry is the row; a key has events if and only if it has a row |
| `QuotaRuns.QuotaStory` | internal/tenant/collaboration_service.go:446-534 | per key and moment: versions equal positions, the last event reconstructs the row, usage is the sum of amounts, every accepted consume was within its limit |
| `QuotaRuns.EventIsRowAtCommit` | internal/tenant/collaboration_service.go:480-530 | each event of the log equals the row at the moment of the event's commit |
| `QuotaRuns.UsageConserved` | internal/tenant/repository.go:576-599 | counted on requests alone: usage equals the sum of the amounts of committed consumes, and neither usage nor limit exceeds the largest limit a committed request set |
| `InvitationRuns.AcceptKeepsSingleUse` | internal/tenant/collaboration_service.go:60-109 | an acceptance based on a read of any age settles the invitation for the first time, together with the membership of the accepting user, or does nothing |
| `InvitationRuns.RevokeKeepsSingleUseIff` | internal/tenant/collaboration_service.go:111-146 | a committed revoke keeps single use if and only if the version it was called with is the one it read |
| `InvitationRuns.RunSingleUseIff` | internal/tenant/collaboration_service.go:60-146 | in all states of a run every row is pending exactly at version 1, settled at most once, and an accepted one has its member, if and only if every committed revoke carried the version it read |
| `InvitationRuns.SettledForever` | internal/tenant/repository.go:428-432 | in such a run a settled row never changes again, at most one settlement is announced, and the membership behind an acceptance is present in every later state |
| `InvitationRuns.SettledAtMostOnce` | internal/tenant/collaboration_service.go:60-146 | counted on requests: at most one accept or revoke of an invitation ever commits, and one has exactly when the row is no longer pending |
| `Counterexamples.GuessedRevokeUndoesAcceptance` | internal/tenant/collaboration_service.go:122-141 | a concrete run in which a revoke that read a pending row but names the next version overwrites an acceptance |
| `Listing.SortIsTheSort` | internal/tenant/dictionary_provider.go:181-198 | on distinct ids any list in strictly increasing comparison order with the same members is the sorted list, so every correct stable sort returns it |
| `Listing.FilterUnits` | internal/tenant/dictionary_provider.go:167-180 | the loop returns exactly the items passing both tests, in order |
| `Listing.Query` | internal/tenant/dictionary_provider.go:59-87 | defaults and refusals; otherwise the items at positions (page-1)*size onward of the list of exactly the items of the wanted status that match, in ascending or descending order of the path, code or name column with ids breaking ties, and its length as total |
| `Listing.PagingLossless` | internal/tenant/dictionary_provider.go:75-86 | as many pages as the total needs concatenate to the whole list, without gap or repeat, and every later page is empty |
| `Listing.DescendingIsReverse` | internal/tenant/dictionary_provider.go:181-198 | for distinct ids the descending list is the exact reverse of the ascending one, for every sort field |
| `Trees.TreeBounded` | internal/tenant/dictionary_provider.go:222-264 | for any items, cyclic or with repeated ids: at most maxNodes nodes, at most maxDepth levels, no id twice on a chain from the root |
| `TreeTheorems.TreeExact` | internal/tenant/dictionary_provider.go:222-264 | only items reachable from the root enter the tree; an untruncated tree holds each of them exactly once, even on cyclic data |
| `TreeTheorems.TruncatedIffMissing` | internal/tenant/dictionary_provider.go:222-264 | on acyclic data no unit occurs twice and the flag is set exactly when some reachable item is missing |
| `TreeTheorems.TreeOrderIsPathOrder` | internal/tenant/dictionary_provider.go:181-198 | on a forest the pre-order reading of an untruncated full tree is the item list sorted by path |
| `TreeLimits.TreeChains` | internal/tenant/dictionary_provider.go:222-264 | completeness up to the limits on any items with distinct ids: the root-to-node chains of the tree are parent-link chains without a repeated id of length at most maxDepth, and every such chain is in the tree or the tree has maxNodes nodes |
| `TreeLimits.TreeHoldsChain` | internal/tenant/dictionary_provider.go:234-262 | on any items a unit whose climb to the root repeats no id and is at most maxDepth long is in the tree, unless the node budget is spent |
| `TreeLimits.TreeHoldsDepth` | internal/tenant/dictionary_provider.go:234-262 | on acyclic items every unit at most maxDepth links below the root is in the tree, unless the node budget is spent |
| `TreeLimits.TruncatedIffOverLimits` | internal/tenant/dictionary_provider.go:235-252 | on acyclic items the flag is set if and only if some unit hangs deeper than maxDepth below the root or more than maxNodes units hang below it |
| `TreeLimits.TruncatedIffNotFull` | internal/tenant/dictionary_provider.go:235-252 | on any items with distinct ids, cyclic ones included, the flag is set if and only if the root or some node of the tree lacks one of its children |
| `TreeLimits.TreeIsPreorderPrefix` | internal/tenant/dictionary_provider.go:244-248 | whatever the items, the nodes of a tree are the first maxNodes in pre-order of the tree with any larger budget |
| `TreeLimits.TreeNodesRight` | internal/tenant/dictionary_provider.go:227-262 | every node is an item, siblings are in path order, and HasChildren says exactly whether some item names the node as parent |
| `TreeBuilding.TreeBuilder.constructor` | internal/tenant/dictionary_provider.go:223-229 | the children index holds, for every parent, exactly its children sorted by path |
| `TreeBuilding.TreeBuilder.Below` | internal/tenant/dictionary_provider.go:236-243 | looking a parent up in the index gives its sorted children, and the empty list for a parent without any |
| `TreeBuilding.TreeBuilder.Build` | internal/tenant/dictionary_provider.go:234-262 | the recursive closure with its shared counter and flag returns the nodes of the tree specification, advances the counter by the nodes taken and raises the flag exactly when the specification does |
| `TreeBuilding.GroupByParent` | internal/tenant/dictionary_provider.go:223-226 | the slice of each parent holds its items in original order |
| `TreeBuilding.SortGroups` | internal/tenant/dictionary_provider.go:227-229 | every slice is sorted by path, whatever the order of keys |
| `TreeBuilding.BuildOrganizationTree` | internal/tenant/dictionary_provider.go:222-264 | the builder returns the specified tree from the empty parent, or from the given parent in children mode |
| `TreeBuilding.ListOrganizationChildren` | internal/tenant/repository.go:269-308 | the limited query returns the first `limit` children in path order with their EXISTS column, and flags whether more exist |
| `TreeBuilding.FastPathAgrees` | internal/tenant/dictionary_provider.go:105-109 | for any status filter the fast path and the general builder at depth 1 give the same nodes, order and HasChildren; the builder's flag is the fast path's or that a returned node has children |
| `Ancestors.ClosureIsLeast` | internal/tenant/dictionary_provider.go:199-221 | the closure contains the matches, is closed under parent within the items, and is contained in every such set |
| `Ancestors.Mark` | internal/tenant/dictionary_provider.go:209-211 | one walk ends, on cycles too, keeps within the closure and leaves nothing half-closed although it stops at items already kept |
| `Ancestors.WithOrganizationAncestors` | internal/tenant/dictionary_provider.go:199-221 | the result is the items of the closure, in original order, for any items with distinct ids |
| `Ancestors.ReserveAncestors` | internal/tenant/repository.go:333-349 | the index holds the hits and a placeholder for every other id named on their paths; the id list holds those others, once each |
| `Ancestors.FillAncestors` | internal/tenant/repository.go:350-361 | across all batches of 500 every reserved id ends as its row if that passes the status filter, and as its placeholder otherwise |
| `Ancestors.SearchWithAncestors` | internal/tenant/repository.go:310-370 | the answer is the first `limit` hits and every row passing the status filter that is named on one of their paths, each once, in path order, with an exact truncation flag |
| `AncestorTheorems.SegmentsAreAncestors` | internal/tenant/repository.go:339-347 | in a forest, splitting a trimmed path yields exactly the ids of the unit and its ancestors by parent links |
| `AncestorTheorems.SearchIsAncestors` | internal/tenant/repository.go:310-370 | untruncated, the search returns exactly the rows passing the status filter that are a hit or an ancestor of one by parent links |
| `AncestorTheorems.SearchReturns` | internal/tenant/repository.go:310-370 | truncated or not: the search returns exactly the rows of the wanted status that are, by parent links, one of the first `limit` matches in path order or an ancestor of one, each once, in path order; the flag tells whether a match was left out |
| `AncestorTheorems.SearchAgreesWithWalk` | internal/tenant/dictionary_provider.go:110-119 | without status filter and truncation the search and the marking walk return the same list |
| `AncestorTheorems.WalkWithinSearch` | internal/tenant/dictionary_provider.go:124-127 | with a status filter every row the walk returns is returned by the search |
| `AncestorTheorems.ResolveOrganizationScope` | internal/tenant/service.go:582-599 | not found for a missing membership or unit, empty without a primary unit, otherwise the prefix selection; in a forest that is exactly the active descendants-or-self, by parent links, of the primary unit, each once and in path order |
| `MembershipDirectory.IndexByUser` | internal/membershipdirectory/search.go:46-49 | the index knows exactly the users of the rows found and maps each to one of its own rows |
| `MembershipDirectory.ScanPage` | internal/membershipdirectory/search.go:50-59 | one page extends the join by that page's active members, cut at the limit |
| `MembershipDirectory.ExpectedPicks` | internal/membershipdirectory/search.go:30-65 | the specified answer in plain terms: users at increasing positions below 500, each with a membership of the tenant of status active, at most `limit`; a member left out comes after `limit` others |
| `MembershipDirectory.Search` | internal/membershipdirectory/search.go:23-65 | the answer is the first `limit` users among the first 500 with an active membership, in directory order, whichever early exit is taken; it fails exactly when it must ask for a page that cannot be served, with the error of the first such page |
| `DictionaryProvider.ListOrganizationUnits` | internal/tenant/repository.go:260-267 | exactly the rows of the tenant, in path order |
| `DictionaryProvider.ListingIsForest` | internal/tenant/repository.go:260-267 | the rows of one tenant of a forest are themselves a forest with distinct ids |
| `DictionaryProvider.AnswerTree` | internal/tenant/dictionary_provider.go:89-130 | limits default to 8 and 1000 and are refused outside 1 to 32 and 1 to 5000; each mode answers as its specification says; every answer stays within the limits, repeats no id on a chain and holds only rows of the wanted status |
| `DictionaryProvider.RunTreesAndSearches` | internal/tenant/dictionary_provider.go:89-130 | in every state of a run without an overtaken unit write, for every tenant: an untruncated full tree read parents first is the listing, and an untruncated search returns what the walk returns |
| `DictionaryProvider.RunScopes` | internal/tenant/service.go:582-599 | in every such state, for every membership with a primary unit, the prefix query selects exactly the active subtree of that unit by parent links |
| `StoreModel.Store.constructor` | migrations/postgres/000002_tenant_domain.up.sql:1-65 | the store starts empty |
| `StoreModel.Store.Finish` | internal/database/transaction.go:25-34 | an error of the callback or a refused commit restores the state at the beginning; otherwise the callback's state stands |
| `StoreModel.Store.AddOutbox` | internal/tenant/repository.go:224-230 | appends one event, nothing else |
| `StoreModel.Store.InsertTenant` | internal/tenant/repository.go:77-83 | inserts or reports a taken id or code, changing nothing |
| `StoreModel.Store.InsertMembership` | internal/tenant/repository.go:85-91 | inserts unless a key, the (tenant, user) pair or a reference is violated |
| `StoreModel.Store.InsertUnit` | internal/tenant/repository.go:232-238 | inserts unless id, (tenant, code), (tenant, path) or a reference is violated |
| `StoreModel.Store.UpdateTenantRow` | internal/tenant/repository.go:101-105 | updates one row at the expected version or reports a stale version |
| `StoreModel.Store.UpdateMembershipRow` | internal/tenant/repository.go:218-222 | updates one row at the expected version or reports a stale version |
| `StoreModel.Store.UpdateUnitRow` | internal/tenant/repository.go:372-377 | the first UPDATE of a move: one row at the expected version, refused on a violated constraint |
| `StoreModel.Store.RewritePaths` | internal/tenant/repository.go:381-394 | the second UPDATE of a move, row by row in any order, equals the simultaneous rewrite |
| `StoreModel.Store.InsertInvitation` | internal/tenant/repository.go:406-413 | inserts unless the id is taken or the tenant is missing |
| `StoreModel.Store.UpdateInvitationRow` | internal/tenant/repository.go:428-432 | settles one row at the expected version or reports a stale version |
| `StoreModel.Store.InsertGroup` | internal/tenant/repository.go:445-452 | inserts unless the id or (tenant, code) is taken or the tenant is missing |
| `StoreModel.Store.UpdateGroupRow` | internal/tenant/repository.go:460-464 | updates one row at the expected version or reports a stale version |
| `StoreModel.Store.InsertGroupMember` | internal/tenant/repository.go:497-505 | inserts unless (group, membership) is taken or a reference is missing |
| `StoreModel.Store.UpdateGroupMemberRow` | internal/tenant/repository.go:516-520 | updates one row at the expected version or reports a stale version |
| `StoreModel.Store.InsertQuota` | internal/tenant/repository.go:568-575 | inserts unless the key is taken or the tenant is missing |
| `StoreModel.Store.UpdateQuotaLimit` | internal/tenant/repository.go:576-580 | sets the limit of one row at the expected version, keeping usage, or reports a stale version |
| `StoreModel.Store.ConsumeQuotaRow` | internal/tenant/repository.go:581-599 | adds the amount only within the limit and returns the row as changed |
| `StoreModel.Store.CreateTenant` | internal/tenant/service.go:121-145 | the statements, run as a transaction that rolls back on any error, implement the one-step specification: same error or same final state |
| `StoreModel.Store.UpdateTenant` | internal/tenant/service.go:155-184 | the statements, run as a transaction that rolls back on any error, implement the one-step specification: same error or same final state |
| `StoreModel.Store.CreateUnit` | internal/tenant/service.go:401-440 | the statements implement the one-step specification; on success one row with the given tenant, parent, code and name is added and announced |
| `StoreModel.Store.UpdateUnit` | internal/tenant/service.go:521-580 | the guards and both UPDATE statements implement the one-step specification; any failure in between restores the state |
| `StoreModel.Store.AddMembership` | internal/tenant/service.go:186-213 | the statements, run as a transaction that rolls back on any error, implement the one-step specification: same error or same final state |
| `StoreModel.Store.UpdateMembership` | internal/tenant/service.go:352-385 | the statements, run as a transaction that rolls back on any error, implement the one-step specification: same error or same final state |
| `StoreModel.Store.CreateInvitation` | internal/tenant/collaboration_service.go:23-58 | the statements, run as a transaction that rolls back on any error, implement the one-step specification: same error or same final state |
| `StoreModel.Store.AcceptInvitation` | internal/tenant/collaboration_service.go:60-109 | the statements implement the one-step specification; success only for a pending invitation before its deadline, with the member inserted |
| `StoreModel.Store.RevokeInvitation` | internal/tenant/collaboration_service.go:111-146 | the statements, run as a transaction that rolls back on any error, implement the one-step specification: same error or same final state |
| `StoreModel.Store.CreateGroup` | internal/tenant/collaboration_service.go:180-204 | the statements, run as a transaction that rolls back on any error, implement the one-step specification: same error or same final state |
| `StoreModel.Store.UpdateGroup` | internal/tenant/collaboration_service.go:205-237 | the statements, run as a transaction that rolls back on any error, implement the one-step specification: same error or same final state |
| `StoreModel.Store.AddGroupMember` | internal/tenant/collaboration_service.go:280-324 | the statements implement the one-step specification; a member already active is left alone without a transaction |
| `StoreModel.Store.RemoveGroupMember` | internal/tenant/collaboration_service.go:389-417 | the statements, run as a transaction that rolls back on any error, implement the one-step specification: same error or same final state |
| `StoreModel.Store.SetQuota` | internal/tenant/collaboration_service.go:446-495 | the statements, run as a transaction that rolls back on any error, implement the one-step specification: same error or same final state |
| `StoreModel.Store.ConsumeQuota` | internal/tenant/collaboration_service.go:496-534 | the transaction, statement by statement, implements its one-step specification under commit and rollback; `allowed` exactly when the commit succeeds and used plus amount is at most the limit before the call, and then exactly the amount is taken |

## Left out

- HTTP and gRPC transport, handlers, authentication, authorization and the principal: who may call is not modelled, what a permitted call does is.
- The idempotency record around tenant creation, and the dispatch, retention and envelope of outbox events: an event is its payload.
- Expiry of the organization lock, and the error an unlock failure reports after a commit: results are stated on commit outcomes.
- Real clocks, UUID generation, invitation tokens and their hashes: time and new ids are inputs, and an acceptance names the invitation its token stands for.
- The second reading of the clock in an acceptance: the deadline test and the audit stamp use one time.
- Trimming, lower-casing and e-mail parsing of request fields: requests arrive normalized.
- SQL collation and LIKE wildcards inside keywords: both searches share one arbitrary match predicate.
- Overflow of 64-bit versions, limits and usage: integers are unbounded.
- Dictionary codes, filter keys and sort names: the sort field is an enumeration and the status filter a parameter.
- The in-memory branch of search_with_ancestors inside `Tree`: it is reached only with a repository that lacks the search query; the walk itself is modelled and compared.
- Plain getters, list queries, batch gets and id de-duplication: they would only add easy members.
- The difference between nil and empty slices.
- StoreModel.Store.UpdateGroupMemberRow: finds the row by (group, membership) and compares its id, because that pair is the key of the modelled table; the statement of the source looks up by id alone.
- The event log does not reconstruct the unit table: the code announces a moved unit with its version from before the increment (as `Promises.UpdateUnitWrites` states) and announces no descendant.
- Services built without a database, a directory or a membership finder, and a second read of a quota racing with its creation after a denied consume.
