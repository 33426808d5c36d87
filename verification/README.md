# HappyView: verified cores

A Dafny 4.11 model of seven pieces of HappyView, an AT Protocol AppView that
indexes records, runs hooks over them and serves raw SQL over record views.
Each piece is a state machine, a protocol that must survive crashes, or a fast
form that has to agree with a simple one. Nothing here runs the program: the
model restates its logic and the verifier checks what is claimed of it.

`dafny verify dfyconfig.toml` checks the whole project.

## What is modelled

**The raw SQL classifier** (`Sql*.dfy`). `record_view_use` decides whether a
query reads only the record views. It walks the query once with a stack of CTE
scopes, checks the bodies of a non-recursive WITH on their own and skips them in
the main walk. `SqlReads` is a plain scoped recursion that lists the free
relations of a query, `SqlEval` an evaluator with subqueries, lateral joins and
recursive WITH, `SqlGuard` the visitor with its mutable state, `SqlRewalk`
the same visitor without the skip, `SqlCost` the count of the visits of both.
`SqlMentions`, `SqlRename`, `SqlAlike` and `SqlSpelling` say what the answers are
by the text of a query alone. A query node's identity is its path in the syntax tree.

**Key rotation** (`ResealRows`, `ResealPass`, `Paging`). A pass pages through a
store by key and writes each row by compare-and-set while other writers land
between any two database calls, any call may fail and any check may stop it. A
ciphertext opens only under the key that sealed it.

**Ingest batches** (`RecordWrites`, `IngestBatch`, `IngestPipeline`,
`IngestApply`, `IngestAgree`, `IngestRows`). `apply_events` groups creates and
updates into runs, writes a run in one transaction, hooks ahead under a window,
and cuts the outcomes back when a write fails. Hooks are functions of the event; the collections that are
tracked or claimed do not change during a batch.

**Labels** (`SubscriptionCache`, `LabelStream`, `LabelExpiry`, `LabelSweep`).
The subscription cache as steps of loads and invalidations; the stream's cursor
over connections that end in any way at any point, where any label write may
fail; the sweep that compares expiries as text and deletes in batches while
labels go on being delivered.

**The rate limiter** (`TokenBucket`), over reals for the floats.

**The refs rebuild** (`RefsRebuild`), over boots that stop anywhere while ingest
goes on.

**Event log filter and retention** (`EventFilter`, `Retention`, `SqlText`,
`BatchedDelete`). The filter is compiled to a token sequence and binds, and read
back by an evaluator in which each mark takes the next bind. A sweep keeps a
history of what landed and what it took, and every claim about a run is about
that history.

## What turned out not to hold as documented

- `record_view_use` goes on to the next statement after one that broke off, with
  the scopes of the broken walk still pushed, and a later statement can replace
  the name kept as "the first" other relation
  (`SqlClassify.LaterNameReplaces`). The names a broken walk leaves in scope are a
  function of the query (`SqlGuard.Relations.VisitQuery`), and with them the answer
  is given exactly (`SqlClassify.RecordViewUse`). The name kept is that of the
  first statement to blame exactly when no later walk stops at a WITH over the
  limit and every later one that stops at another relation is followed by one that
  stops at the first again (`SqlClassify.NameIsFirstExactly`). Whatever is left in
  scope, the name is a relation that is read and is not a view, because more scope
  only hides reads. For the same reason a later statement is not refused for a
  relation with the name of a CTE that a broken walk left in scope
  (`SqlRename.LeftNameHides`). Two statements that read the same can be put for
  each other in every script exactly when it is refused by then, or the names they
  leave in scope differ at most by views' names (`SqlAlike.SameInEveryScriptExactly`).
- `Mixed` is documented as the views together with another relation. It is
  answered for SQL that names a view and reads only something else
  (`SqlClassify.MixedWithoutView`). A script gets `Mixed` or the error exactly when
  it names a view and some statement reads something that stops the walk, so
  such an answer means that a view is read exactly when the pre-check did not let
  through a script that reads none (`SqlClassify.RecordViewUse`).
- A run is written with one copy of each record, the last, so a batch is not in
  general its events one by one. Two exact conditions, over every database. A
  run stores the same content exactly when no earlier copy has a newer rev, or a
  rev where the last has none, or none where the last has one
  (`RecordWrites.BatchAgreesExactlyInOrder`). It leaves the very same database
  exactly when every earlier copy only repeats the last: neither has a rev, or
  the copy has the same content and a rev that is not newer, which for the first
  copy is the same rev (`RecordWrites.BatchIsEachExactly`). The first condition on
  every run is not enough for a batch of several, because a run can leave a rev
  that the next one meets (`IngestAgree.RevsInOrderDoNotCompose`); the second is
  (`IngestAgree.BatchIsOneByOne`), and for a batch that is one run it is exact
  (`IngestAgree.OneRunExactly`). In every case a batch is its events one by one
  with the copies that a later one in the run replaces left out.
- A label whose write fails is logged and passed over, and the cursor goes on
  (`LabelStream.FailedWriteIsPassedOver`). So the table is that of a run without
  a crash in every key whose latest write did not fail, and altogether exactly
  when, in each other key, the latest write that succeeded left what the log's
  last write on it leaves, or none succeeded and that write removes it
  (`LabelStream.Subscription.Run`).
- The rate limiter samples its clock before it locks the bucket. A sample older
  than the last one moves `last_refill` back, so the time between refills twice
  and more than the quota can be allowed (`TokenBucket.BackwardSampleOverruns`).
  Up to the last sample the window bound holds for every config and all costs
  exactly when no sample precedes an earlier one
  (`TokenBucket.WindowBoundExactly`); `TokenBucket.AllowedBound` holds in any
  order, with the forward moves of the samples in place of the elapsed time.
- `RateLimit-Reset` is documented as the time when the bucket will be full. An
  allowed check works it out before it spends the cost
  (`TokenBucket.ResetLeavesOutTheSpend`), so it is right exactly when the spend
  takes no further whole second to refill (`TokenBucket.AllowedResetExactly`). A
  limited check advertises what an empty bucket takes, which is late when there
  are tokens (`TokenBucket.LimitedResetIsLate`) and right exactly when those save
  no whole second (`TokenBucket.LimitedResetExactly`).
- Cleanup is invisible to clients exactly when a bucket refills within the 300
  seconds it takes to go stale (`TokenBucket.EvictionInvisibleExactly`).
- The subject filter is a substring match, and a category a prefix, exactly when
  the text has no `%` or `_` in it.
- `NotNeeded` marks the refs rebuild done without walking anything, on the
  strength of any one ref in the table, live ingest's included
  (`RefsRebuild.NotNeededPassesOver`). A boot that is not stopped leaves every
  record with its refs exactly when a rebuild had started, or no record had a ref
  at the probe, or all had theirs (`RefsRebuild.Instance.RebuildOnce`).

## Model

| member | source | states |
|---|---|---|
| `SqlClassify.RecordViewUse` | src/raw_sql_guard.rs:299-337 | `Only` exactly when no statement reads anything but views and one reads a view; `None` exactly when no view is named or nothing is read; the error exactly when a view is named and some walk, with the names left by those before it in scope, stops at a WITH over the limit; otherwise `Mixed` with the last relation that a walk stops at, which some statement really reads and is not a view; `Mixed` or the error exactly when a view is named and some statement reads something that stops it; a script answered `Only` gives the same result in any two databases that agree on the views; the visits are within the bound summed over the statements |
| `SqlClassify.LaterNameReplaces` | src/raw_sql_guard.rs:353-354 | of two statements that each select from one relation that is not a view, whatever their names, the later one's is answered |
| `SqlClassify.NameIsFirstExactly` | src/raw_sql_guard.rs:353-354 | the name answered is the first to-blame statement's first other relation if and only if no later walk stops at a WITH over the limit and each later one that stops at another name is followed by one that stops at the first |
| `SqlClassify.OneToBlame` | src/raw_sql_guard.rs:321-337 | with one statement to blame the answer is its own first bad read's |
| `SqlClassify.MixedWithoutView` | src/raw_sql_guard.rs:282-286 | `Mixed` for a script that names a view and reads none |
| `SqlRename.RenamingKeepsAnswer` | src/raw_sql_guard.rs:376-382 | giving the CTEs of any picked WITHs another plain name that the text does not have, with their unqualified uses in scope and in `TABLE x`, recursive, nested or shadowed, changes no answer; in a script, of a statement that does not stop or is the last |
| `SqlRename.ThroughKeepsAnswer` | src/raw_sql_guard.rs:435-462 | a statement read through `WITH alias AS (q) SELECT .. FROM alias`, whatever the alias, gives the answer of `q` |
| `SqlRename.LeftNameHides` | src/raw_sql_guard.rs:322-325 | renaming a CTE that an earlier statement stops in can change the answer, because its name stays in scope |
| `SqlAlike.SameInEveryScriptExactly` | src/raw_sql_guard.rs:322-325 | statements that read the same, after the same statements, give the same answer whatever follows if and only if the script is refused by then or the names in scope after them agree but for views' names |
| `SqlAlike.RenamingExactly` | src/raw_sql_guard.rs:322-325 | that condition is exactly when a renamed CTE is invisible in every script |
| `SqlAlike.ThroughExactly` | src/raw_sql_guard.rs:322-325 | and exactly when reading a statement through a CTE is |
| `SqlAlike.QueryAlike` | src/raw_sql_guard.rs:379-386 | a view's name in scope stops nothing and hides nothing that would: scopes that agree but for views' names meet the same first bad read and leave scopes that agree so |
| `SqlSpelling.SelectFromExactly` | src/raw_sql_guard.rs:379-391 | `SELECT .. FROM x` is answered `Only` exactly when `x` is written as one of the three views, in any case or letter for letter in quotes, alone or after `main` or `public`, and otherwise refused |
| `SqlSpelling.TableExactly` | src/raw_sql_guard.rs:397-404 | the same for `TABLE x`, whatever its case |
| `SqlSpelling.RefusalNames` | src/raw_sql_guard.rs:387-390 | a refusal calls a relation `schema.name`, or its name where it has no schema |
| `SqlSpelling.RefusalsAreMentioned` | src/raw_sql_guard.rs:284-292 | an error only where some WITH in the text has more than 1000 CTEs, and always when a statement's own one does; a `Mixed` name only of a relation the text uses without arguments |
| `SqlMentions.ReadsOccur` | src/raw_sql_guard.rs:474-503 | every read is of a relation that stands in the text as a table or `TABLE x`, never a table function |
| `SqlNonInterference.NonInterference` | src/raw_sql_guard.rs:284-298 | a query all of whose free relations are views evaluates alike in any two databases that agree on the views, for every way of computing expressions and any number of recursive rounds |
| `SqlNonInterference.OtherRelationShows` | src/raw_sql_guard.rs:276-283 | the evaluator does tell such databases apart for a query that selects from any relation that is not a view |
| `SqlGuard.Relations.VisitQuery` | src/raw_sql_guard.rs:414-472 | the stateful walk of a query, with checked bodies skipped, breaks off exactly when the plain reading has a relation that is not a view or a WITH over the limit, names the first of them, and has seen a view exactly when the plain reading has one before it; a completed walk leaves scopes and `skipping` as they were, and a broken one leaves in scope just the names of the WITHs open where it stopped |
| `SqlGuard.Relations.PreVisitQuery` | src/raw_sql_guard.rs:417-466 | entering a query reads the bodies of a non-recursive WITH, each with only the CTEs before it in scope, and the `TABLE x` arms of the body |
| `SqlGuard.Relations.CheckBody` | src/raw_sql_guard.rs:438-459 | a CTE body walked on its own reads what the plain reading gives it with the earlier names in scope, and is marked as checked |
| `SqlGuard.Relations.PostVisitQuery` | src/raw_sql_guard.rs:468-472 | leaving a query restores the scope height and `skipping` from before it was entered |
| `SqlGuard.Relations.Record` | src/raw_sql_guard.rs:374-392 | a relation is read unless skipped or an unqualified name in scope, and stops the walk unless it is a view |
| `SqlGuard.Relations.ScanBody` | src/raw_sql_guard.rs:394-411 | finds the `TABLE x` arms of a body and no other part of it |
| `SqlGuard.Relations.VisitFactor` | src/raw_sql_guard.rs:474-503 | reads a named relation and what is inside derived tables, joins and function arguments, but not a table function itself |
| `SqlGuard.ReadsSplit` | src/raw_sql_guard.rs:417-466 | what the pre-visit reads and what the rest of the walk reads come to what the plain reading lists |
| `SqlClassify.QueryHides` | src/raw_sql_guard.rs:324-326 | a scope left over from a broken walk can only hide reads of a later statement, never add one |
| `SqlCost.CostBound` | src/raw_sql_guard.rs:420-426 | a walk makes at most (CTE nesting depth + 1) times as many query visits as there are query nodes |
| `SqlCost.UnskippedWalkDoubles` | src/raw_sql_guard.rs:420-426 | a count that takes each body of a non-recursive WITH twice at least doubles with each level of nesting around any query |
| `SqlRewalk.Rewalker.VisitQuery` | src/raw_sql_guard.rs:417-466 | the walk that goes through checked bodies again stops on exactly the queries the plain reading stops on, and otherwise makes exactly the visits of that count |
| `SqlRewalk.WalkBoth` | src/raw_sql_guard.rs:420-426 | the walks with and without the skip stop on the same queries; around any query the one keeps to (depth + 1) times the nodes while the other doubles with each level |
| `ResealRows.ResealedRow` | src/reseal.rs:243-278 | sealing a row again leaves nothing to seal, changes what no reader opens, and neither mends nor breaks an unreadable column |
| `ResealRows.NeedExactly` | src/reseal.rs:243-278 | a row needs sealing if and only if it is plaintext with a value or some column reads otherwise without the previous key; it has an unreadable value if and only if some value reads as nothing |
| `ResealRows.OutlivesMeans` | src/reseal.rs:5-13 | a readable value of a row that can do without the previous key is sealed under the current one |
| `ResealPass.WritersShrink` | src/reseal.rs:259-268 | a writer that stores only current-key values never makes a row need sealing |
| `ResealPass.WritersAgree` | src/reseal.rs:358-369 | a writer leaves rows that read alike reading alike |
| `ResealPass.StoreTable.CompareAndSet` | src/reseal.rs:386-449 | writes exactly when every column and the flag still hold what was read, and then only the columns bound and the flag |
| `ResealPass.StoreTable.ResealRow` | src/reseal.rs:500-528 | a fetched row that is neither counted as changed nor failed needs no sealing afterwards, whoever wrote in between; no row comes to need sealing |
| `ResealPass.StoreTable.ResealPage` | src/reseal.rs:500-528 | over a page, every row that still needs sealing was counted as changed |
| `ResealPass.StoreTable.ResealStore` | src/reseal.rs:483-536 | in every interleaving: the rows needing the previous key or still plaintext never grow, after a whole pass each of them was counted in `changed`, and every column opens to what the writers alone would have left; undisturbed, the pass ends with none left, `resealed` is how many there were, `changed` is 0, unreadable rows are counted and unchanged, and no other row is written; after a whole pass every row not counted as changed holds no plaintext and reads the same in every column with the previous key dropped |
| `ResealPass.StoreTable.ResealAgain` | src/reseal.rs:480-482 | over any sequence of passes, interrupted anywhere, the rows in need never grow and no reader sees a change; after one that finished, the previous key can be dropped for every row not counted as changed |
| `ResealPass.StoreTable.Status` | src/reseal.rs:452-478 | each row once: as previous when it is not plaintext and some column reads otherwise without the previous key, as unsealed when it is plaintext with a value, as unreadable when no key opens a value; none counted as previous or unsealed exactly when the previous key can be dropped |
| `ResealPass.StoreTable.RotateUndisturbed` | src/reseal.rs:452-541 | with no other writer the pass re-seals exactly what `status` counted as previous or unsealed, the next `status` counts none and the same unreadable rows, and a second pass writes nothing |
| `ResealPass.StoreTable.CountPage` | src/reseal.rs:371-382 | a page adds each of its rows to the counts once |
| `Paging.SelectPage` | src/reseal.rs:293-330 | a page is the least keys in order, and short only when it holds them all |
| `RecordWrites.BatchAgreesExactlyInOrder` | src/record_store/mod.rs:227-240 | writing a run in one transaction stores the same content as writing its records one by one, for every database, if and only if no copy is newer than its record's last copy |
| `RecordWrites.BatchIsEachExactly` | src/record_store/mod.rs:227-240 | it leaves the very same database, revs included, for every database, if and only if every copy only repeats its record's last one |
| `RecordWrites.BatchIsLastCopy` | src/record_store/mod.rs:227-240 | a batch write leaves in each row what writing the record's last copy alone leaves |
| `RecordWrites.EachIsFold` | src/record_store/mod.rs:384-433 | what a sequence of writes does to one row depends on the writes to that row alone, and tombstones are left alone |
| `IngestBatch.FlushAdvances` | src/ingest.rs:483-526 | writing a run takes the database from the events before it to the events up to its end, applied one by one with the copies that a later one replaces left out |
| `IngestBatch.ReplacedInRun` | src/ingest.rs:530-539 | within a run an event is replaced exactly when its record is not the last copy of its key |
| `IngestBatch.NothingReplaced` | src/ingest.rs:269-369 | without two copies of a record in one run nothing is left out |
| `IngestPipeline.FlagChanged` | src/ingest.rs:528-540 | a record is flagged as changed once, on its last copy, exactly when that write inserts or changes its row; no other slot changes |
| `IngestPipeline.BatchConcurrency` | src/ingest.rs:231-266 | more than one at once only for backfill records with pairwise distinct keys; then the limit is exactly the least of the configured one and each claiming storage's, and at least 1; otherwise 1 |
| `IngestPipeline.HookAhead` | src/ingest.rs:374-417 | for every order in which hooks finish: the answers are those of exactly the events this instance stores, each hooked once, with never more than the window in flight |
| `IngestApply.TakeHook` | src/ingest.rs:321-324 | the answer used for an event is its hook's, and the event is hooked once, ahead or in its turn |
| `IngestApply.FlagInRun` | src/ingest.rs:528-540 | the flag worked out from the run's write is whether the event's own write, in its place in the order, changes its row |
| `IngestApply.Ingest.WriteRun` | src/ingest.rs:483-551 | a run is written whole or not at all, with its flags settled; a failure changes nothing; its events have one origin |
| `IngestApply.Ingest.FlushRun` | src/ingest.rs:332-340 | a flush moves the batch past the run, or ends it with the run and everything after it given the failure's outcome |
| `IngestApply.Ingest.ApplyInOrder` | src/ingest.rs:299-369 | one outcome an event; with every run written, the database and outcomes are those of the events one by one with replaced copies left out; after a failed write they are those of the events before that run's first slot, and every later slot holds the failure and no change; each event that has a hook, deletes and events applied apart included, is hooked at most once, and exactly once when no write fails |
| `IngestApply.Ingest.ApplyClaimed` | src/ingest.rs:279-298 | for every order of steps within the window, a batch a storage claims whole gives the in-order database, outcomes and flags; each event that has a hook is hooked once, and no more than the limit are in hand |
| `IngestApply.Ingest.ApplyEvents` | src/ingest.rs:269-369 | both ways of applying a batch keep the same promise, unless a storage claims lexicon schema events; in both, each event that has a hook is hooked at most once, and exactly once when no write fails, and no more are in hand than the limit, which is exactly the least of the configured one and the claiming storages' for distinct backfill records, and 1 otherwise |
| `IngestAgree.BatchIsOneByOne` | src/ingest.rs:269-369 | when the copies of a record in a run only repeat its last one, the database is that of the events applied one by one, up to the failed run; each outcome is that of the event applied in turn, and so is the flag of an event that is not stored |
| `IngestAgree.FlagIsOneByOne` | src/ingest.rs:528-540 | a stored event is flagged exactly when it is its record's last copy in the run and changes the row the events before the run, one by one, have left |
| `IngestAgree.OneRunExactly` | src/ingest.rs:269-369 | a batch that is one run leaves what its events one by one leave, for every database, if and only if the copies only repeat the last |
| `IngestAgree.NoRepeatsOnlyRepeats` | src/ingest.rs:269-369 | a batch in which no record comes twice in a run meets that condition |
| `IngestAgree.RevsInOrderDoNotCompose` | src/ingest.rs:483-526 | two runs that each store the content their events would can together store other content, because the first leaves a newer rev |
| `IngestRows.RowIsLastStored` | src/ingest.rs:325-345 | by the event and the hook's answer alone: after a batch, the last event that can touch a record's row leaves there the hook's body with the event's cid and rev, unless a tombstone is as new, the row's rev is newer or the row has the same content; a missing rev keeps the row's |
| `IngestRows.RowIsSpared` | src/ingest.rs:346-351 | a record that only claimed events, other records' events and events the hook skips or rejects concern keeps its row |
| `IngestRows.OtherEvents` | src/ingest.rs:355-362 | an event that is not a tracked, unclaimed create or update with a body is applied as the rest of the system applies it, a claimed one by its storage to its delta alone, and a skipped one reported as skipped |
| `IngestRows.FlagIsChange` | src/ingest.rs:528-540 | a stored event is flagged if and only if its write changed its row |
| `SubscriptionCache.StepKeepsInv` | src/labeler.rs:69-93 | every step of every load and invalidation keeps a fetched list current unless a change is still to bump the generation, and a stored one unless an invalidation is pending |
| `SubscriptionCache.CachedIsCurrent` | src/labeler.rs:56-94 | over every interleaving, once no invalidation is pending the slot is empty or holds the table's list |
| `SubscriptionCache.LoadStores` | src/labeler.rs:56-94 | a load that nothing overtakes leaves the table's list in the slot |
| `SubscriptionCache.GenerationIsNeeded` | src/labeler.rs:60-61 | the same load without the generation check would leave a stale list that nothing is going to clear |
| `LabelStream.Subscription.constructor` | src/labeler.rs:209-218 | a subscription with no cursor starts at 0 with nothing to make good |
| `LabelStream.Subscription.ApplyLabel` | src/labeler.rs:411-492 | a label's write is the next of the log's writes; made or failed, replaying up to it keeps the table repairable in every key whose latest write did not fail |
| `LabelStream.Subscription.SaveCursor` | src/labeler.rs:511-526 | a failed save leaves the old cursor |
| `LabelStream.Subscription.Receive` | src/labeler.rs:278-325 | a message moves the stream one message on, with the cursor saved every 100 never past what was attempted; no key comes into doubt unless a write fails |
| `LabelStream.Subscription.EndSession` | src/labeler.rs:280-297 | however the connection ends, mid-message included, and whichever writes failed, the stream can be taken up from the saved cursor; at the end of the log the table is right outside the keys in doubt, and altogether exactly when those hold what the log's last writes leave |
| `LabelStream.Subscription.RunSession` | src/labeler.rs:274-328 | one connection takes just the messages it delivers from the first past the saved cursor, keeps the stream resumable, never moves the cursor back, and after a saved end resumes where it stopped; having seen the whole log, the table is that of a run without a crash in every key whose latest write did not fail, and altogether exactly when in each of the others the latest write that succeeded left what the log's last one leaves; cut short, it leaves fewer than 100 readable messages to be taken again if cursor writes succeed |
| `LabelStream.Subscription.Run` | src/labeler.rs:194-344 | over any sequence of connections, however each ends and whichever writes fail, the same; with no write failing the table is that of a run without a crash; by the log alone, a key that is not in doubt is absent exactly when the last label the script lets through on it is a negation or there is none, and otherwise holds that label's time and its expiry, if one parses |
| `LabelStream.CrashFreeShows` | src/labeler.rs:411-492 | the same of a run without a crash |
| `LabelStream.Subscription.CursorSafe` | src/labeler.rs:314-325 | the saved cursor never passes a message with a label write still to be attempted; each write it has passed is in doubt because the latest on its key failed, or will be made again, or shows in the table |
| `LabelStream.FailedWriteIsPassedOver` | src/labeler.rs:482-497 | a label whose write fails is missing from the table though the cursor has passed its message |
| `LabelStream.FailingIs` | src/labeler.rs:482-497 | a key is in doubt exactly when the latest attempt to write it failed |
| `LabelStream.MadeHolds` | src/labeler.rs:440-497 | a key holds what the latest write that succeeded on it left, and nothing when none did |
| `LabelStream.HoldsRightExactly` | src/labeler.rs:482-497 | a key in doubt is right if and only if the latest write that succeeded on it left what the log's last one leaves, or none succeeded and the last one removes it |
| `LabelStream.ReplayCatchesUp` | src/labeler.rs:278-328 | a replay past every write made before leaves each key that is not in doubt as a run without a crash does, and the whole table exactly when the others are too |
| `LabelStream.ReplayChangesNothing` | src/labeler.rs:417-492 | making any last stretch of the writes again changes nothing |
| `LabelStream.ReplayStops` | src/labeler.rs:278-328 | a replay stopped anywhere can be taken up again from any saved point up to there |
| `LabelExpiry.SweptIsPast` | src/labeler.rs:620-641 | for UTC timestamps in the swept forms and a `+00:00` cutoff, text order implies the instant is not after the cutoff, leap seconds included |
| `LabelExpiry.PastIsSwept` | src/labeler.rs:620-653 | a strictly earlier expiry is swept, except exactly a `Z` one in the cutoff's own second whose fraction digits the cutoff's go on from |
| `LabelExpiry.WrittenIsSwept` | src/labeler.rs:642-653 | every UTC timestamp is LIKE one of the four forms, whether or not LIKE folds case |
| `LabelExpiry.LessText` | src/labeler.rs:613-632 | two timestamps compare as text by their fields in order, then by what follows the second |
| `LabelSweep.LabelTable.DeleteExpired` | src/labeler.rs:609-679 | with labels delivered and negated between batches the sweep ends: unless a batch fails nothing expired is left at its end and the count is of what it took; with nothing delivered it is one delete of everything expired; what is left is not in a UTC form before the cutoff |
| `LabelSweep.LabelFate` | src/labeler.rs:656-679 | a label that is gone after a sweep was, in the batch that took it, in a UTC form and before the cutoff as text, or was negated by a delivery |
| `LabelSweep.DueInTime` | src/labeler.rs:609-653 | of the UTC expiries strictly before the cutoff only a `Z` one in its own second, whose digits the cutoff's go on from, is not due, and none that is due is after it |
| `LabelExpiry.SweptExactly` | src/labeler.rs:620-653 | the four patterns take in exactly a date and time with their punctuation and then `+00:00` or `Z`, at once or after a point and anything |
| `TokenBucket.RateLimiter.Check` | src/rate_limit.rs:110-160 | the client's bucket and answer are those of refilling, clamping and spending; no other bucket changes; an unregistered client gets none; `limit` is the capacity of the registered config |
| `TokenBucket.RateLimiter.Cleanup` | src/rate_limit.rs:291-300 | a bucket goes exactly when it was left alone for 300 seconds |
| `TokenBucket.RateLimiter.RegisterClientConfig` | src/rate_limit.rs:182-184 | the client moves as a registration does in a run, so its bucket is left to the next check, which refills at the new config |
| `TokenBucket.RateLimiter.RemoveClientConfig` | src/rate_limit.rs:225-227 | the client moves as a removal does in a run: the config goes and the bucket stays |
| `TokenBucket.AllowedBound` | src/rate_limit.rs:130-160 | in any order of samples, the cost allowed plus what the bucket holds is at most a full bucket at the start and after each eviction plus what refills as samples move forward |
| `TokenBucket.WindowBound` | src/rate_limit.rs:110-160 | from a first check to any time d later, at most capacity × (1 + evictions) + rate × d is allowed, and there are at most ⌊d/300⌋ evictions |
| `TokenBucket.RegisteredWindowBound` | src/rate_limit.rs:110-184 | with configs registered and removed anywhere between the checks, the same bound with the largest capacity and the fastest rate among them |
| `TokenBucket.WindowStarts` | src/rate_limit.rs:117-129 | a client that has just made a check, whatever bucket it found, or has made none, is at the start of such a window |
| `TokenBucket.NewRateRefillsThePast` | src/rate_limit.rs:130-133 | a rate registered just before a check refills all the time since the last one |
| `TokenBucket.BoundHoldsExactly` | src/rate_limit.rs:117-135 | for samples in any order, capacity + rate × d bounds what is allowed for every config and all costs if and only if the samples move forward by at most d in all |
| `TokenBucket.WindowBoundExactly` | src/rate_limit.rs:117-135 | with d up to the last sample that is if and only if no sample precedes an earlier one; up to the latest sample, if and only if none that has gone back is followed by a later one |
| `TokenBucket.BackwardSampleOverruns` | src/rate_limit.rs:117-135 | a run of four checks over two seconds that allows 6 where the quota is 4 |
| `TokenBucket.RetryAfterExact` | src/rate_limit.rs:152-159 | a client that waits the advertised seconds is allowed, whatever limited checks and cleanups come between, and unless its bucket is evicted no smaller whole number of seconds suffices |
| `TokenBucket.RemainingIsExact` | src/rate_limit.rs:145-150 | right after an allowed check, a cost is allowed exactly when it is within the advertised remaining |
| `TokenBucket.ResetLeavesOutTheSpend` | src/rate_limit.rs:138-143 | the advertised reset is the least whole number of seconds that fills the bucket as the check found it, so after spending from a full bucket it is 0 though the bucket is not full |
| `TokenBucket.AllowedResetExactly` | src/rate_limit.rs:138-151 | the reset of an allowed check is when the bucket will be full, to the whole second, if and only if the spend takes no further second to refill; with no refill, if and only if the bucket was full and nothing was spent |
| `TokenBucket.LimitedResetExactly` | src/rate_limit.rs:152-159 | by the reset of a limited check the bucket is full, and it is the right time if and only if what the bucket holds saves no whole second |
| `TokenBucket.LimitedResetIsLate` | src/rate_limit.rs:152-159 | told ten seconds with a bucket that is full in five |
| `TokenBucket.FullInExactly` | src/rate_limit.rs:138-142 | there is one right time, the whole seconds that what is lacking takes to refill |
| `TokenBucket.LimitedOnlyWaits` | src/rate_limit.rs:130-160 | limited checks leave the bucket as if it had been left alone |
| `TokenBucket.EvictionInvisibleExactly` | src/rate_limit.rs:291-300 | every answer with cleanup running equals the answer without it, in every run, if and only if rate × 300 ≥ capacity |
| `RefsRebuild.Instance.constructor` | src/record_refs.rs:176-184 | an instance that never started a rebuild has walked nothing |
| `RefsRebuild.Instance.RebuildPage` | src/record_refs.rs:232-247 | a page commits with its cursor or not at all, walks only records past every one walked before, and leaves every record up to its cursor with its refs; an empty one means every record has them |
| `RefsRebuild.Instance.CommitPage` | src/record_store/mod.rs:1625-1695 | re-syncing the page's records that are still there covers every record up to the last, those ingest put in meanwhile included |
| `RefsRebuild.Instance.Walk` | src/record_refs.rs:224-271 | the walk ends with the done marker in place of the cursor, and counts what it walked |
| `RefsRebuild.Instance.RebuildOnce` | src/record_refs.rs:186-272 | `AlreadyDone` exactly on a done instance, and it stays done; `NotNeeded` exactly when nothing was done or started, some record had a ref by the probe and the boot was not stopped; `Rebuilt` means every record has its refs; a boot that is not stopped leaves every record with its refs if and only if a rebuild had started, or no record had a ref at the probe, or all had theirs |
| `RefsRebuild.Instance.Probe` | src/record_refs.rs:207-223 | with ingest landing on either side of the probe: not needed exactly when a ref is there, and otherwise marked as started, unless stopped |
| `RefsRebuild.HasRefsExactly` | src/record_refs.rs:208 | only a ref that is there counts, not a record that references nothing |
| `RefsRebuild.NotNeededPassesOver` | src/record_refs.rs:207-212 | a ref of a record ingested as the boot begins marks the instance done with an older record's refs missing |
| `RefsRebuild.Instance.Boots` | src/record_refs.rs:176-194 | over any boots stopped anywhere with ingest between: a finished rebuild means every stored record has its refs, no record is walked twice by committed pages, once a rebuild has started no later boot answers `NotNeeded`, and after one answer every later one is `AlreadyDone`; that is, its refs are those of its body |
| `EventFilter.Build` | src/event_log.rs:122-174 | for every filter, reading the fragment with its binds in order comes out even and selects exactly the rows of the field-by-field predicate |
| `EventFilter.CompiledMeans` | src/event_log.rs:122-174 | the same of the pieces put together, row by row |
| `EventFilter.ProtectedPartitions` | src/event_log.rs:58-68 | Exclude and Only share out what Include selects |
| `EventFilter.BoundsPartition` | src/event_log.rs:101-104 | the lower bound is inclusive and the upper one exclusive: at one moment they share out what neither bounds |
| `EventFilter.SplitJoins` | src/event_log.rs:130-145 | a list is split into parts without commas that joined give it back |
| `EventFilter.JoinSplits` | src/event_log.rs:130-145 | and any parts without commas, joined, are split into themselves |
| `EventFilter.SubjectIsSubstringExactly` | src/event_log.rs:99-100 | the subject clause is a substring match for every subject, up to case where LIKE folds it, if and only if the filter has no wildcard |
| `EventFilter.CategoryIsPrefixExactly` | src/event_log.rs:95-96 | a category part is an event type prefix, up to case where LIKE folds it, if and only if it has no wildcard |
| `Retention.EventLogs.DeleteBatch` | src/event_log.rs:220-262 | a batch takes only rows older than the cutoff, of the sweep's kind and, if protected, held by no stored grant, and a short one takes them all |
| `Retention.EventLogs.DeleteBefore` | src/event_log.rs:220-265 | with changes, purges and faults between batches only this sweep takes anything more, lawfully and on the record; unless its last batch failed nothing it sweeps is left, and it counts what it took; undisturbed, exactly what one unbounded delete would remove is gone; what is left of its kind and older is protected and held by a stored grant |
| `Retention.EventLogs.DeleteExpiredEvents` | src/event_log.rs:329-359 | each kind of event goes by its own days, and 0 keeps it |
| `Retention.EventLogs.SweepEndedGrants` | src/event_log.rs:365-397 | a grant goes only when it was revoked or expired before the cutoff; unless a batch fails no such grant is left, whatever landed meanwhile, and the count is of what it took; undisturbed, exactly those go |
| `Retention.EventLogs.RetentionPass` | src/event_log.rs:491-559 | grants before events; unprotected events are kept for the days set, or 30, under the host's ceiling; protected ones and grants for the days set for them, or 365, whatever the ceiling, and with no valid setting of their own for good when everything is kept; a kind kept for 0 days loses nothing whatever lands meanwhile; the exact tables of an undisturbed pass |
| `Retention.EventLogs.Passes` | src/event_log.rs:491-559 | over any passes with any settings, changes, purges and faults, every event that was there is there unchanged, or a sweep since took it, older than its cutoff, of its kind and, if protected, held by no grant stored then, or a purge job took it and it is not protected; a grant that is gone had ended |
| `Retention.EventFate` | src/event_log.rs:220-265 | over any lawful history, an event that was there at any point is there unchanged or was taken after that point by a lawful sweep or, if not protected, by a purge job |
| `Retention.GrantFate` | src/event_log.rs:365-397 | and a grant is there or was taken after it had ended before the cutoff |
| `Retention.ProtectedGoesOnlyWhenFree` | src/event_log.rs:288-297 | over the whole history, a protected event that is no longer there was, when a protected sweep took it, older than the cutoff and tied to no grant stored then |
| `Retention.PurgeSparesProtected` | src/jobs/native/purge_event_logs.rs:40-46 | whatever the input of a purge job, its filter selects no protected event |
| `Retention.QuietPassIsExact` | src/event_log.rs:288-297 | in an undisturbed pass a protected event stays exactly when it is not older than its cutoff or a grant that neither expired nor was revoked before the cutoff holds it, another exactly when it is not older than its own cutoff, and a grant exactly when it did neither; 0 days keeps |

## Left out

- The SQL tokenizer and parser, and SQL that does not parse: the classifier starts from the syntax tree, with the token pre-check as a parameter that is true at least when a view is read. Quoting of the name in `TABLE x` is lost in the syntax tree and so here.
- `is_read_only`, `is_write`, `check_raw_sql_tables`: short recursions over the syntax tree that would add only easy members.
- The loop over the stores of a rotation and the plugin secrets kept as JSON: each store is one `StoreTable`, and plugin configs are one more compare-and-set on a whole text.
- `IgnoredKeeps`, timers, metrics and label fetches in ingest: they do not touch stored records.
- The memo of tracked collections within a batch: the collections tracked do not change during one.
- IngestApply.Ingest.ApplyEvents: does not promise the order of a batch claimed whole by a storage that also claims lexicon schema events, because those steps are not independent by key.
- Account, sync and identity events, deletes and lexicon schema events: one opaque step that ends a run.
- Labels written by other labelers or by hand in the same table, and messages a labeler sends out of order.
- Lock poisoning in the subscription cache, and a list handed to a reader and kept.
- Timestamps with an offset other than UTC, or in lower case, which the sweep leaves alone or compares differently.
- Rounding of floats, the wall-clock part of the reset header and per-client default costs in the rate limiter.
- `extract_at_uris`: the refs of a body are a function of it.
- Local writes in the refs rebuild: ingest there is the network's, which commits a record and its refs together, while `write_local` commits the refs after the row and can fail between.
- Two instances running a rebuild or a retention pass at the same time.
- The escape character of LIKE on Postgres, which a backslash in a subject or category would meet.
- `names_protected`, dead letters, tombstones, job logs, the purge job's own loop and vacuuming: the same loops, or no effect on events and grants.
