# Verified models of the vendor catalogue's stateful algorithms

A Dafny model of the parts of the vendor catalogue whose guarantees span whole runs, with proofs of
those guarantees. Each area has a model file, in which the source's objects are classes whose
methods are proved equal to functions on values, and a file of theorems about those functions over
every input, run or reachable state. The files `PoolOutcomes`, `LruRecency`, `LookupOutcomes`,
`RateVictims`, `AlertOutcomes`, `ReviewTotals`, `TemplateShows`, `ImportPlaces` and `DdlNames` say what
those functions compute, from their inputs alone and without the functions they are built from.

| area | files |
|---|---|
| Databricks connection pool: a condition-variable protocol among any number of threads | `Pool`, `PoolProtocol`, `PoolSafety`, `PoolCapacity`, `PoolOutcomes` |
| LRU cache with expiry, and the query cache built on it | `LruCache`, `LruTheorems`, `LruRecency`, `LruViews`, `QueryCache`, `QueryStaleness` |
| Versioned lookup options: save, delete, renumbering, history | `LookupTable`, `LookupTheorems`, `LookupRuns`, `LookupOutcomes` |
| Sliding-window rate limiter | `RateLimiter`, `RateLimiterTheorems`, `RateDrops`, `RateVictims` |
| Latency histograms and performance alerts | `Histogram`, `Alerts`, `AlertOutcomes` |
| Demo review templates and scoring | `Rounding`, `ReviewTemplates`, `ReviewScoring`, `ReviewBounds`, `ReviewTotals` |
| Demo template library: an append-only log and its catalogue | `TemplateLibrary`, `TemplateHistory`, `TemplateCopies`, `TemplateShows` |
| Import dedupe: cached key sets beside the repository | `KeyedTables`, `ImportDedupe`, `ImportTheorems`, `ImportPlaces` |
| DDL scanner: the CREATE TABLE pattern, the splitter, the table inventory | `CreateHead`, `DdlScanner`, `DdlTheorems`, `DdlNames` |

`Common` holds the shared value types and sequence lemmas. `dafny verify dfyconfig.toml` checks
everything.

How the source is represented:

- Clocks, new ids, form and import data, and the answers of the database are parameters. Times are
  reals, and a clock does not go backwards in the order in which a lock is taken.
- Weights, scores and percentages are exact reals; 0.95 is 19/20; rounding to decimals is written
  out, ties to even.
- A pool step is one lock region, one connection opened or closed outside the lock, a wait that
  times out, or the clock advancing. A notify may wake any waiter. A wait times out when its thread
  has the lock back, since until then it can still be notified.
- An ordered dictionary is a sequence in its insertion order.
- Text arrives stripped; where the source strips again after cutting a title or label, so does the
  model. Lookup types, codes and windows arrive normalised. Case and
  blanks are those of ASCII.

Where the code does less than it seems to promise, the model follows the code, and the exact
condition is proved:

- The pool counts a slot before it validates the configuration and outside the block that gives
  slots back, so slots are conserved exactly when the configuration validates
  (`SlotsConservedIffConfigValidates`, `LeakOne`).
- The advertised `retry_after` is truncated, and is enough exactly when the remaining time is at
  most a second or a whole number of seconds (`RetryAfterSufficesIff`); over all runs it is enough
  exactly when the window is one second (`AdvertisedWaitSufficesIff`, `AdvertisedWaitFails`).
- The overflow loop forgets a key together with its samples, so a key can be accepted more often than
  the maximum in one window, but only by the maximum once more for each time it is forgotten there
  (`RateIsBoundedByDrops`), and that bound is reached (`BoundIsReached`).
- Copying or deleting a template stores the questions it read. A question scores as before exactly when
  this cuts no scale, or no answer lands above the bottom of the cut one (`ReadAgainIff`,
  `ScoresSameIff`; `CopyCanNarrowScale` is an input). No template saved from the form has such a scale
  (`RunKeepsStable`, `CopiesScoreTheSame`).
- A stored `required = False` reads back as true, and scoring does not look at the field, so every
  question but a section header must be answered (`FlagSurvivesIff`, `AcceptedFormsAnswerAll`).
- The name key of a contact joins name and type with a bar, so a contact can be skipped because of a
  stored one that is no duplicate. That can happen exactly when its name or type has a bar at which
  the joined text splits another way into a name and a type that could be stored
  (`NameKeyIff`, `SkippedIff`, `SkippedWithoutDuplicateIff`; `LookalikeExample` is the least pair).
  A bar with a blank beside it, or at the outer end of the text, does not count: the other contact
  would have a blank or untrimmed name or type. Owner keys join principal and role in the same way
  (`OwnerKeyIff`, `OwnerSkippedIff`, `OwnerSkippedWithoutDuplicateIff`).
- When others write to the database as well, a query answers as uncached exactly when no live frame
  cached for it is out of date (`QueryRightIff`, `RunRightIff`). A wrong answer is younger than the
  lifetime (`AnswersAreRecent`, `QuietQueriesAreRight`), and that bound is reached
  (`OutsideWriteIsMissed`). An outside write falls between two calls of the client.

Beside these, `Alerts.GaugeMatchesState` notes that state and gauge of an alert agree after each
request, and `Alerts.AlertEngine.UpdateStateLocked` that the method computes the update that the
breach theorems are about.

## Model

| member | source | states |
|---|---|---|
| Pool.ConnectionPool.constructor | app/vendor_catalog_app/infrastructure/db.py:95-130 | A new client counts no connection, has none idle, and is open. |
| Pool.ConnectionPool.CollectExpiredLocked | app/vendor_catalog_app/infrastructure/db.py:226-239 | Splits the idle list at the idle limit, in order, and uncounts exactly the stale ones; a limit of 0 collects nothing. |
| Pool.ConnectionPool.AcquirePassLocked | app/vendor_catalog_app/infrastructure/db.py:241-267 | One trip through the acquire section, as PoolOutcomes.OutcomeIs states it: closed raises; else expired ones are collected, the last usable idle connection is taken, else a slot is counted, else the thread waits for the time left, or gets the timeout when none is left. |
| PoolSafety.CountsGiveBack | app/vendor_catalog_app/infrastructure/db.py:280-283 | A failed connect gives up exactly one counted slot and leaves one waiter fewer, if any; the total still accounts for every slot and no wake-up is lost. |
| PoolSafety.CountsRelease | app/vendor_catalog_app/infrastructure/db.py:290-301 | A release makes the connection the last idle one, timed now, or, when broken or the pool is closed, uncounts it and hands it over to be closed; it leaves one waiter fewer, if any, and the total still accounts for every slot. |
| PoolSafety.CountsCallClose | app/vendor_catalog_app/infrastructure/db.py:303-315 | A close hands every idle connection to its caller to be closed, uncounts exactly those, leaves nobody waiting, and the total still accounts for every slot. |
| PoolSafety.CollectEffect | app/vendor_catalog_app/infrastructure/db.py:226-239 | Collecting keeps each connection in exactly one of idle and stale, uncounts as many as it removes, and leaves only unexpired ones idle. |
| PoolSafety.PassEffect | app/vendor_catalog_app/infrastructure/db.py:241-267 | What one acquire pass moves: idle and stale connections, the total, and the idle time of the connection taken. |
| PoolOutcomes.CollectIs | app/vendor_catalog_app/infrastructure/db.py:226-239 | Collecting from any idle list keeps exactly the connections below the idle limit, in order, hands over the others, in order, and uncounts as many; with a limit of 0 it changes nothing. |
| PoolOutcomes.OutcomeIs | app/vendor_catalog_app/infrastructure/db.py:241-267 | On an open pool, for every counted state: the last usable idle connection is taken if there is one; with none, a new slot is taken exactly when the total less the stale ones is below the maximum; with none and no room, the thread waits for deadline - now when that is positive and gets the timeout exactly when it is not. What stays idle, what is stale and the total are stated as well. |
| PoolOutcomes.EnterStarts | app/vendor_catalog_app/infrastructure/db.py:241-242 | A thread that enters has the whole acquire timeout before its deadline. |
| PoolOutcomes.StepKeepsDeadline | app/vendor_catalog_app/infrastructure/db.py:241-273 | No step of any thread moves the deadline of a thread that is still acquiring. |
| PoolOutcomes.ReachableOutcome | app/vendor_catalog_app/infrastructure/db.py:241-267 | In every reachable state of an open pool the acquire section does just that: reuse, new slot, wait until the deadline, or timeout at or after the deadline only. |
| PoolOutcomes.NoEarlyTimeout | app/vendor_catalog_app/infrastructure/db.py:241-273 | From the moment a thread enters, through any steps of any threads, no acquire section of it raises the timeout before the acquire timeout has passed. |
| PoolOutcomes.SomebodyWaits | app/vendor_catalog_app/infrastructure/db.py:258-267 | For every pool that validates, a state can be reached in which all its connections are in use and the next thread waits with its whole timeout left. |
| PoolProtocol.WakeOneEffect | app/vendor_catalog_app/infrastructure/db.py:283-297 | A notify turns exactly one waiter, if there is one, into a woken thread and touches nobody else. |
| PoolProtocol.WakeEverybodyEffect | app/vendor_catalog_app/infrastructure/db.py:303-313 | A notify_all leaves no waiter. |
| PoolSafety.StepKeepsInv | app/vendor_catalog_app/infrastructure/db.py:241-359 | Every step of every thread keeps the whole invariant: conservation, no lost wake-up, closed means drained, each connection in one place, nothing dropped. |
| PoolSafety.ReachableInv | app/vendor_catalog_app/infrastructure/db.py:241-359 | The invariant holds in every reachable state, for any number of threads and any interleaving. |
| PoolSafety.NoWakeupIsLost | app/vendor_catalog_app/infrastructure/db.py:241-315 | While some waiter is un-notified, idle connections plus unused slots are no more than the notified waiters yet to run, threads that merely timed out not counted, and the pool is open. |
| PoolSafety.WaiterIsNotStranded | app/vendor_catalog_app/infrastructure/db.py:241-315 | While a thread waits, another has been notified and is yet to run, or holds a connection or is creating one and so still has to notify. |
| PoolSafety.SlotsConservedIffConfigValidates | app/vendor_catalog_app/infrastructure/db.py:241-315 | The total equals idle plus in use plus being created, and stays within the maximum, in all reachable states if and only if the configuration validates. |
| PoolSafety.LeakOne | app/vendor_catalog_app/infrastructure/db.py:256-283 | A configuration that does not validate: one acquire counts a slot that no thread holds or returns. |
| PoolSafety.ClampsNeverBite | app/vendor_catalog_app/infrastructure/db.py:226-315 | At each place where the total is clamped at 0 the unclamped value is already at least 0. |
| PoolSafety.ExactlyOnePlace | app/vendor_catalog_app/infrastructure/db.py:226-359 | Each opened connection is in exactly one of idle, owned by one thread, closed; closed once at most; never dropped; and no two threads own it. |
| PoolCapacity.OpenedAreCounted | app/vendor_catalog_app/infrastructure/db.py:226-359 | The connections ever opened are exactly the idle, the used, those about to be closed and the closed ones, counted together. |
| PoolCapacity.OpenWithinMaximum | app/vendor_catalog_app/infrastructure/db.py:226-359 | In every reachable state the open connections, those about to be closed apart, are at most the maximum. |
| PoolSafety.HeldConnectionIsUsable | app/vendor_catalog_app/infrastructure/db.py:241-288 | A connection in use is open, in no other place, and had idled for less than a positive idle limit. |
| PoolSafety.WaitersHoldNothing | app/vendor_catalog_app/infrastructure/db.py:241-273 | An acquire that waits, times out or finds the pool closed holds no collected connection. |
| PoolSafety.ClosedForGood | app/vendor_catalog_app/infrastructure/db.py:303-315 | From a close on, through any further run, nothing is idle and nobody waits. |
| PoolSafety.ClosedAndQuiet | app/vendor_catalog_app/infrastructure/db.py:290-359 | After a close, once every block has exited, the total is 0 and exactly the opened connections have been closed, each once. |
| LruCache.LruTtlCache.constructor | app/vendor_catalog_app/infrastructure/cache.py:16-29 | An empty cache, with a negative lifetime taken as 0 and a limit below 1 as 1. |
| LruCache.LruTtlCache.Clear | app/vendor_catalog_app/infrastructure/cache.py:31-33 | Empties the cache. |
| LruCache.LruTtlCache.EvictExpired | app/vendor_catalog_app/infrastructure/cache.py:97-100 | Removes exactly the expired entries and keeps the order of the others. |
| LruCache.LruTtlCache.EvictLru | app/vendor_catalog_app/infrastructure/cache.py:102-104 | Keeps the most recently used entries, up to the limit. |
| LruCache.LruTtlCache.Get | app/vendor_catalog_app/infrastructure/cache.py:35-49 | Drops expired entries, moves a hit to the end, returns its value; a disabled cache never hits (LruRecency.HitMovesLast, MissOnlyExpires and OffDoesNothing state it on the entries). |
| LruCache.LruTtlCache.Set | app/vendor_catalog_app/infrastructure/cache.py:51-62 | Stores the value last with its expiry, evicting expired and then least recently used entries; a lifetime of 0 stores nothing. |
| LruCache.LruTtlCache.GetOrLoad | app/vendor_catalog_app/infrastructure/cache.py:64-90 | A hit is moved to the end; a miss stores the loaded value under the clock of the load. |
| LruTheorems.RunWellKept | app/vendor_catalog_app/infrastructure/cache.py:31-104 | Over any trace no key is held twice and the limit is respected. |
| LruTheorems.HoldsLatest | app/vendor_catalog_app/infrastructure/cache.py:31-62 | Whatever the trace, an entry held for a key is the last effective set of that key since the last clear. |
| LruTheorems.HitIsLatest | app/vendor_catalog_app/infrastructure/cache.py:35-62 | A hit returns the latest value set since the last clear, unexpired. |
| LruTheorems.RunStacked | app/vendor_catalog_app/infrastructure/cache.py:31-104 | Two caches of different limits, run on the same trace, stay in stack order: the smaller is the most recent part of the larger. |
| LruTheorems.StackInclusion | app/vendor_catalog_app/infrastructure/cache.py:31-62 | After any trace, with any lifetimes, everything the smaller cache holds the larger holds, with the same value and expiry and in the same order. |
| LruTheorems.LastSurvives | app/vendor_catalog_app/infrastructure/cache.py:35-62 | The last entry of any cache survives any trace that neither clears, names nor expires its key and uses fewer than the limit of other keys. |
| LruRecency.HitMovesLast | app/vendor_catalog_app/infrastructure/cache.py:35-49 | A get whose key has an unexpired entry returns its value, and afterwards the entries are the unexpired others in their order and then that entry, value and expiry kept. |
| LruRecency.MissOnlyExpires | app/vendor_catalog_app/infrastructure/cache.py:35-49 | A get without one returns nothing and leaves exactly the unexpired entries in their order. |
| LruRecency.SetStoresLast | app/vendor_catalog_app/infrastructure/cache.py:51-62 | A set that takes effect leaves the unexpired others in their order, less the oldest above the limit, and then the value with its expiry. |
| LruRecency.OrderedByUse | app/vendor_catalog_app/infrastructure/cache.py:31-104 | After any trace from an empty cache the entries stand in the order of the last set or hit of their keys, so what a full cache drops is the least recently used. |
| LruRecency.UsedIsLast | app/vendor_catalog_app/infrastructure/cache.py:35-62 | After any trace that ends in an effective set of a key, or in a get that returns its value, the last entry is the latest one set for that key, and holds that value. |
| LruRecency.KeySurvives | app/vendor_catalog_app/infrastructure/cache.py:35-62 | After any trace from an empty cache that ends in an effective set of a key or a get that hits it, the key still hits with that value, through any further trace in which it is neither cleared, named nor expired and fewer than the limit of other keys are used. |
| QueryCache.QueryClient.CacheGet | app/vendor_catalog_app/infrastructure/db.py:429-430 | Hits exactly when the client on values does, and then hands the caller a fresh copy with the rows the database has; the entries become those of that client. |
| QueryCache.QueryClient.CachePut | app/vendor_catalog_app/infrastructure/db.py:432-433 | The cache keeps its own copy of the frame, stored as the client on values stores the rows. |
| QueryCache.QueryClient.Query | app/vendor_catalog_app/infrastructure/db.py:558-636 | Returns a fresh frame with what an uncached client would return, or raises when it would, changes no database state, and leaves the cache as the client on values does, hits and stores included. |
| QueryCache.QueryClient.Execute | app/vendor_catalog_app/infrastructure/db.py:638-685 | Writes as an uncached client would; success empties the cache, failure leaves it. |
| QueryCache.QueryClient.CallerMutates | app/vendor_catalog_app/infrastructure/db.py:558-636 | A caller that changes a frame it was given does not disturb the cache. |
| QueryCache.StepTransparent | app/vendor_catalog_app/infrastructure/db.py:558-685 | One request answers as uncached and keeps every cached frame equal to what the database would answer. |
| QueryCache.RunTransparent | app/vendor_catalog_app/infrastructure/db.py:558-685 | Any run of queries and writes answers exactly as the uncached client, from any coherent cache. |
| QueryCache.FreshClientTransparent | app/vendor_catalog_app/infrastructure/db.py:558-685 | The same from a new client, over any database. |
| QueryStaleness.QueryRightIff | app/vendor_catalog_app/infrastructure/db.py:558-636 | Over any engine and any client state, a query answers as uncached if and only if it is refused, bypasses the cache, the cache is off, or no live frame of it differs from what the database would answer now. |
| QueryStaleness.RunRightIff | app/vendor_catalog_app/infrastructure/db.py:558-685 | A run with outside writes answers throughout as uncached if and only if each of its queries meets that condition. |
| QueryStaleness.AnswersAreRecent | app/vendor_catalog_app/infrastructure/db.py:558-685 | Bounded staleness: after any run with outside writes every answer is the uncached answer of the present state or of a state the database was in less than the lifetime ago. |
| QueryStaleness.QuietQueriesAreRight | app/vendor_catalog_app/infrastructure/db.py:558-685 | Once the last outside write is at least the lifetime ago, every query answers as uncached. |
| QueryStaleness.OutsideWriteIsMissed | app/vendor_catalog_app/infrastructure/db.py:558-636 | The bound is reached: over any engine, a cached statement whose answer somebody else changes is still answered the old way at every moment of its lifetime. |
| QueryStaleness.AnswerIsKept | app/vendor_catalog_app/infrastructure/db.py:558-636 | An answer that had to be read is given again, from the cache alone, at every moment of its lifetime, whatever the database has become. |
| LruViews.GetBoth | app/vendor_catalog_app/infrastructure/cache.py:35-49 | Two caches with the same keys and expiries and other values hit, miss and reorder alike. |
| LruViews.SetBoth | app/vendor_catalog_app/infrastructure/cache.py:51-62 | And a set stores, replaces and evicts alike in both. |
| LookupTable.OptionTable.PlanVersions | app/vendor_catalog_app/backend/repository_mixins/domains/repository_lookup.py:358-410 | The loop over the new order lists exactly the versions to close and to insert, in order. |
| LookupTable.OptionTable.WriteVersions | app/vendor_catalog_app/backend/repository_mixins/domains/repository_lookup.py:415-439 | Closes the listed versions one by one, then appends the new ones. |
| LookupTable.OptionTable.FindClash | app/vendor_catalog_app/backend/repository_mixins/domains/repository_lookup.py:313-321 | True exactly when some other live option has the label, ignoring case, in an overlapping window. |
| LookupTable.OptionTable.CollectOverlapping | app/vendor_catalog_app/backend/repository_mixins/domains/repository_lookup.py:323-329 | Collects the other live options whose windows overlap, in order. |
| LookupTable.OptionTable.SaveOption | app/vendor_catalog_app/backend/repository_mixins/domains/repository_lookup.py:274-439 | Refuses exactly as LookupOutcomes.SaveErrorIs says and then changes nothing; otherwise closes, inserts and renumbers, with the version LookupOutcomes.SelectedIff names as the one updated. |
| LookupTable.OptionTable.DeleteOption | app/vendor_catalog_app/backend/repository_mixins/domains/repository_lookup.py:441-545 | Refuses a missing or unknown id; otherwise closes the option, adds its tombstone, renumbers the survivors. |
| LookupTheorems.RowLeqTransitive | app/vendor_catalog_app/backend/repository_mixins/domains/repository_lookup.py:330-336 | The sort key (order, label, id) is a transitive order on rows; with RowLeqTotal, a total one. |
| LookupTheorems.RowLeqTotal | app/vendor_catalog_app/backend/repository_mixins/domains/repository_lookup.py:330-336 | Any two rows are ordered by the sort key. |
| LookupOutcomes.OrderIs | app/vendor_catalog_app/backend/repository_mixins/domains/repository_lookup.py:330-336 | Rows are ordered by number, 0 counting as 999, then by label ignoring case, then by id. |
| LookupOutcomes.StrLeqIff | app/vendor_catalog_app/backend/repository_mixins/domains/repository_lookup.py:330-336 | Texts are compared by their first difference. |
| LookupTheorems.SortRowsSorted | app/vendor_catalog_app/backend/repository_mixins/domains/repository_lookup.py:330-336 | Sorting keeps the same rows and orders them by the key. |
| LookupTheorems.CloseAllAt | app/vendor_catalog_app/backend/repository_mixins/domains/repository_lookup.py:415-420 | Closing a list of ids changes exactly the rows with those ids, each in its place. |
| LookupTheorems.LiveAfter | app/vendor_catalog_app/backend/repository_mixins/domains/repository_lookup.py:358-439 | A current row afterwards is an old one left alone or a new version. |
| LookupTheorems.RenumberedWindow | app/vendor_catalog_app/backend/repository_mixins/domains/repository_lookup.py:358-439 | In the window, the live rows afterwards are exactly the final rows of the places. |
| LookupTheorems.OutsideWindow | app/vendor_catalog_app/backend/repository_mixins/domains/repository_lookup.py:358-439 | Outside the window, a live row is there afterwards exactly if it was and no place supersedes it. |
| LookupTheorems.HistoryKept | app/vendor_catalog_app/backend/repository_mixins/domains/repository_lookup.py:415-439 | Every old row is still in its place, the same or only marked superseded. |
| LookupTheorems.RenumberKeepsNoClash | app/vendor_catalog_app/backend/repository_mixins/domains/repository_lookup.py:295-321 | Renumbering brings no two live options of a type with the same label and overlapping windows. |
| LookupTheorems.LiveCount | app/vendor_catalog_app/backend/repository_mixins/domains/repository_lookup.py:358-439 | Renumbering changes the number of live options only by the places that supersede nothing. |
| LookupRuns.SaveRenumbersDensely | app/vendor_catalog_app/backend/repository_mixins/domains/repository_lookup.py:323-439 | After a save the live options overlapping the saved window are numbered 1..n, the saved one at min(requested, n), the others in their former order with code, label and window kept. |
| LookupRuns.SaveLeavesRest | app/vendor_catalog_app/backend/repository_mixins/domains/repository_lookup.py:323-439 | Live options of other types, or outside the saved window, are untouched, but for the version being updated. |
| LookupRuns.SaveCounts | app/vendor_catalog_app/backend/repository_mixins/domains/repository_lookup.py:293-311 | A save that supersedes a version keeps the number of live options of the type, another adds one; which it is, LookupOutcomes.SaveUpdatesOrCreates states on the rows. |
| LookupOutcomes.SelectedIff | app/vendor_catalog_app/backend/repository_mixins/domains/repository_lookup.py:293-311 | The version a save updates is the live one of the type with the id given, or, without an id, the only live one with the code; with several or none it updates nothing. |
| LookupOutcomes.SaveErrorIs | app/vendor_catalog_app/backend/repository_mixins/domains/repository_lookup.py:287-321 | A save is refused for a reversed window; else for an id that no live version has; else for a label that a live version of the type other than the one updated has, ignoring case, at an overlapping time; and is accepted otherwise. |
| LookupOutcomes.OverlapIff | app/vendor_catalog_app/backend/repository_mixins/common/core/lookup_schema.py:324-329 | Two windows overlap exactly when some day lies in both. |
| LookupOutcomes.SaveUpdatesOrCreates | app/vendor_catalog_app/backend/repository_mixins/domains/repository_lookup.py:293-439 | An accepted save with the id of a live version, or without an id and with the code of exactly one, supersedes that version and keeps the number of live options; without an id and with the code of none or several it supersedes nobody and adds one. |
| LookupOutcomes.SaveLeavesOthers | app/vendor_catalog_app/backend/repository_mixins/domains/repository_lookup.py:323-439 | Every live version of the type outside the window, but for the one updated, is live afterwards as it was, and so is every one of another type. |
| LookupOutcomes.SavePlaces | app/vendor_catalog_app/backend/repository_mixins/domains/repository_lookup.py:323-410 | In terms of the rows alone: afterwards the options of the window are the live others in their sorted order with the saved one at the place asked for, or last, numbered from 1. |
| LookupOutcomes.SaveRewritesNoMore | app/vendor_catalog_app/backend/repository_mixins/domains/repository_lookup.py:358-410 | An option that already stands at its number is not written again, and neither is the saved one when nothing about it changes. |
| LookupOutcomes.SaveWrites | app/vendor_catalog_app/backend/repository_mixins/domains/repository_lookup.py:415-439 | Old rows stay or are closed at the time of the save; each new row is a live, active version of the type, stamped by it. |
| LookupRuns.SaveKeepsTable | app/vendor_catalog_app/backend/repository_mixins/domains/repository_lookup.py:274-439 | A save keeps ids distinct, live windows valid and labels free of clashes. |
| LookupRuns.DeleteRenumbers | app/vendor_catalog_app/backend/repository_mixins/domains/repository_lookup.py:452-545 | A delete leaves the overlapping survivors in their order, numbered 1..m, with code, label and window kept, and the target no longer live. |
| LookupRuns.DeleteLeavesRest | app/vendor_catalog_app/backend/repository_mixins/domains/repository_lookup.py:452-545 | Live options of other types, or not overlapping the deleted window, are after a delete exactly those that were there before. |
| LookupRuns.DeleteCounts | app/vendor_catalog_app/backend/repository_mixins/domains/repository_lookup.py:452-485 | A delete removes one live option. |
| LookupOutcomes.DeleteErrorIs | app/vendor_catalog_app/backend/repository_mixins/domains/repository_lookup.py:441-456 | A delete is refused without an id and for an id that no live version has, and accepted otherwise. |
| LookupOutcomes.DeletesIff | app/vendor_catalog_app/backend/repository_mixins/domains/repository_lookup.py:452-460 | The version deleted is the live one of the type with the id. |
| LookupOutcomes.DeleteWrites | app/vendor_catalog_app/backend/repository_mixins/domains/repository_lookup.py:460-485 | The target is closed where it stands, and its tombstone says what it said, valid from then on, deleted and inactive. |
| LookupRuns.DeleteKeepsTable | app/vendor_catalog_app/backend/repository_mixins/domains/repository_lookup.py:441-545 | A delete keeps ids distinct, live windows valid and labels free of clashes. |
| LookupRuns.RunKeepsTable | app/vendor_catalog_app/backend/repository_mixins/domains/repository_lookup.py:274-545 | Over any sequence of saves and deletes, accepted or refused, no two live options of a type share a label in overlapping windows. |
| LookupRuns.RunKeepsHistory | app/vendor_catalog_app/backend/repository_mixins/domains/repository_lookup.py:274-545 | Over any sequence every version ever written is still there, at most marked superseded. |
| RateLimiter.SlidingWindowRateLimiter.constructor | app/vendor_catalog_app/web/security/controls.py:126-140 | Empty tables; limits below 1 request, 1 second or 128 keys are raised to those. |
| RateLimiter.SlidingWindowRateLimiter.AllowRequest | app/vendor_catalog_app/web/security/controls.py:142-165 | Prunes the key, refuses with a truncated wait when full, otherwise records the time; then trims. |
| RateLimiter.SlidingWindowRateLimiter.TrimLocked | app/vendor_catalog_app/web/security/controls.py:167-187 | Within the key limit nothing happens; otherwise stale keys go, then the least recently seen until the limit is met. |
| RateLimiter.SlidingWindowRateLimiter.SweepStale | app/vendor_catalog_app/web/security/controls.py:171-180 | Prunes every deque and forgets exactly the keys left empty, in both tables. |
| RateLimiterTheorems.DropOverflowFits | app/vendor_catalog_app/web/security/controls.py:182-187 | The overflow loop ends within the limit with equal key sets, so its early break is never what ends it. |
| RateLimiterTheorems.OldestIsNotLast | app/vendor_catalog_app/web/security/controls.py:183 | The minimum by last-seen time, first in insertion order on ties, is never the key seen last. |
| RateLimiterTheorems.OverflowEffect | app/vendor_catalog_app/web/security/controls.py:156-187 | A call drops at most one key by overflow, and never the key just served. |
| RateVictims.SeenIsLastCall | app/vendor_catalog_app/web/security/controls.py:146-160 | After any run each key of the tables carries the time of its last call. |
| RateVictims.ForgetsIff | app/vendor_catalog_app/web/security/controls.py:167-187 | After any run the next call makes the overflow loop forget a key exactly when it comes with a key that is not stored while as many stored keys as the limit have an accepted time inside the window. |
| RateVictims.ForgottenIsLeastRecent | app/vendor_catalog_app/web/security/controls.py:182-187 | The key forgotten was last called no later than any key that stays. |
| RateVictims.SwitchedOff | app/vendor_catalog_app/web/security/controls.py:142-145 | A limiter that is switched off accepts every call of any run, asks for no wait and keeps its tables as they are. |
| RateLimiterTheorems.AllowKeepsTables | app/vendor_catalog_app/web/security/controls.py:142-187 | Each call keeps both tables with the same keys, within the limit, each deque ascending and at most full, and holds the served key. |
| RateLimiterTheorems.SweepInvisible | app/vendor_catalog_app/web/security/controls.py:171-180 | The sweep changes no answer from then on. |
| RateLimiterTheorems.DecisionIsReference | app/vendor_catalog_app/web/security/controls.py:146-160 | A call decides by the number of accepted times of the key in the last window, whatever was discarded. |
| RateLimiterTheorems.AllowRefines | app/vendor_catalog_app/web/security/controls.py:142-187 | Each call keeps the tables a refinement of the full accepted history of the keys not dropped. |
| RateLimiterTheorems.AllowMatchesFullHistory | app/vendor_catalog_app/web/security/controls.py:142-165 | After any run, a key never dropped is accepted exactly when fewer than the maximum of all its acceptances lie in the last window; a refusal asks for 1..window seconds. |
| RateLimiterTheorems.RateIsBounded | app/vendor_catalog_app/web/security/controls.py:142-165 | In every half-open window of the limiter's length, closed at either end, at most the maximum of the requests of a key that is never dropped by the overflow loop are accepted. |
| RateDrops.RateIsBoundedByDrops | app/vendor_catalog_app/web/security/controls.py:142-187 | For every key and every such window, acceptances are at most the maximum times one more than the number of times the overflow loop forgets the key inside the window. |
| RateDrops.BoundIsReached | app/vendor_catalog_app/web/security/controls.py:142-187 | For every limiter and key, a run from the fresh tables in which the key is forgotten once and accepted twice the maximum at one instant. |
| RateLimiterTheorems.TablesStayBounded | app/vendor_catalog_app/web/security/controls.py:142-187 | After any run and any call both tables have the same distinct keys, at most the limit, and the key just served. |
| RateLimiterTheorems.RetryAfterBounds | app/vendor_catalog_app/web/security/controls.py:157 | A refusal's wait is between one second and the window. |
| RateLimiterTheorems.RetryAfterSufficesIff | app/vendor_catalog_app/web/security/controls.py:157-160 | Waiting the advertised time is enough if and only if the true remaining time is at most one second or a whole number of seconds. |
| RateLimiterTheorems.AdvertisedWaitFails | app/vendor_catalog_app/web/security/controls.py:157-160 | For every limiter with a window of two seconds or more, a run from the fresh tables in which a refused caller comes back when told to and is refused again. |
| RateLimiterTheorems.AdvertisedWaitSufficesIff | app/vendor_catalog_app/web/security/controls.py:157-160 | The advertised wait is enough in every run from the fresh tables if and only if the window is one second. |
| RateLimiterTheorems.RefusalKeepsSamples | app/vendor_catalog_app/web/security/controls.py:156-160 | A refusal leaves the full, pruned deque in place. |
| Histogram.BucketOf | app/vendor_catalog_app/infrastructure/observability.py:236-239 | The first bucket whose bound admits the value, or none when all are below it. |
| Histogram.HistogramStore.ObserveValue | app/vendor_catalog_app/infrastructure/observability.py:223-239 | One observation adds to the count, the sum and exactly one bucket of its own series, creating it if needed. |
| Histogram.HistogramStore.RenderLabel | app/vendor_catalog_app/infrastructure/observability.py:482-505 | The rendering loop produces cumulative buckets, then +Inf, the sum and the count. |
| Histogram.RenderedHistogram | app/vendor_catalog_app/infrastructure/observability.py:216-220 | After any observations, bucket le=u is how many were at most u, +Inf and the count are how many there were, and the sum, printed to six decimals, is within half a millionth of their sum. |
| Histogram.RenderedBucketsIncrease | app/vendor_catalog_app/infrastructure/observability.py:525-546 | Rendered buckets never decrease, and none exceeds +Inf. |
| Histogram.BucketTablesAreBounds | app/vendor_catalog_app/infrastructure/observability.py:216-220 | The bucket tables in use are strictly increasing and their bounds are printed exactly. |
| Histogram.LabelsAreIndependent | app/vendor_catalog_app/infrastructure/observability.py:223-239 | Each series renders only its own observations, and exists exactly when it has one. |
| Alerts.AlertEngine.RecordRequest | app/vendor_catalog_app/infrastructure/observability.py:314-324 | Adds the sample, prunes the window at the sample's own time, updates the three alerts. |
| Alerts.AlertEngine.PruneWindowLocked | app/vendor_catalog_app/infrastructure/observability.py:341-344 | Removes samples from the front while they are older than the window. |
| Alerts.AlertEngine.EvaluateLocked | app/vendor_catalog_app/infrastructure/observability.py:346-390 | Each alert is updated with whether its measure is over a positive limit, given enough samples. |
| Alerts.AlertEngine.SumWindow | app/vendor_catalog_app/infrastructure/observability.py:363-365 | Counts the errors and adds the database times of the window. |
| Alerts.WindowIsExact | app/vendor_catalog_app/infrastructure/observability.py:341-344 | After each request the window is exactly the samples at most the window length old. |
| Alerts.P95IsNearestRank | app/vendor_catalog_app/infrastructure/observability.py:360-362 | The p95 is one of the samples, with at least 95% of them at most it and fewer than 95% below it. |
| Alerts.BreachesThrottled | app/vendor_catalog_app/infrastructure/observability.py:406-410 | Breaches beyond the rising edges, times the cooldown, fit into the time up to the last one logged. |
| Alerts.BreachCountBounds | app/vendor_catalog_app/infrastructure/observability.py:402-410 | Breaches counted lie between the rising edges and the rising edges plus elapsed time over cooldown. |
| AlertOutcomes.P95Over | app/vendor_catalog_app/infrastructure/observability.py:358-360 | The 95th percentile is over a limit exactly when more than a twentieth of the values are. |
| AlertOutcomes.BreachedIs | app/vendor_catalog_app/infrastructure/observability.py:346-391 | A measure is breached exactly when the window holds enough requests, the limit is positive, and more than a twentieth of the requests are slower than it, or the failed ones are more than that percentage, or the database time is more than it for each request. |
| AlertOutcomes.ActiveIff | app/vendor_catalog_app/infrastructure/observability.py:338-406 | After any run of requests an alert is active, and its gauge 1, exactly when that holds of the requests of the last window. |
| AlertOutcomes.LogIsLastCounted | app/vendor_catalog_app/infrastructure/observability.py:408-414 | The time kept for the cooldown is that of the last request that counted a breach. |
| AlertOutcomes.CountedIff | app/vendor_catalog_app/infrastructure/observability.py:404-414 | A request counts one breach exactly when it leaves the alert active and the alert was quiet before it or the last breach was counted at least a cooldown ago. |
| Rounding.RoundIntIsNearest | app/vendor_catalog_app/web/routers/demos/common.py:918 | Rounding gives a nearest integer, the even one of two. |
| Rounding.RoundToIsClose | app/vendor_catalog_app/web/routers/demos/common.py:918-992 | Rounding to decimals moves a value by at most half a unit of the last decimal. |
| Rounding.RoundMonotone | app/vendor_catalog_app/web/routers/demos/common.py:966-992 | Rounding to decimals keeps the order of values. |
| ReviewTemplates.SafeFloat | app/vendor_catalog_app/web/routers/demos/common.py:142-151 | Within the bounds it is given, and the number itself when that is within them. |
| ReviewTemplates.FlagSurvivesIff | app/vendor_catalog_app/web/routers/demos/common.py:154-158 | A stored boolean reads back as itself if and only if it is true or the default is false. |
| ReviewTemplates.Defaults | app/vendor_catalog_app/web/routers/demos/common.py:171-196 | Every option-scored kind has at least two default options with weights in range; no other kind has any. |
| ReviewTemplates.Heaviest | app/vendor_catalog_app/web/routers/demos/common.py:361-362 | The largest option weight: an upper bound that is attained. |
| ReviewTemplates.ParseV1 | app/vendor_catalog_app/web/routers/demos/common.py:243-272 | The loop keeps the criteria with a label, in order; none at all means no template. |
| ReviewTemplates.ParseOptions | app/vendor_catalog_app/web/routers/demos/common.py:335-353 | The option loop keeps the options with a label, in order, with clamped weights. |
| ReviewTemplates.ParseV2 | app/vendor_catalog_app/web/routers/demos/common.py:288-401 | The question loop keeps the usable items, in order; none at all means no template. |
| ReviewTemplates.ParseForm | app/vendor_catalog_app/web/routers/demos/common.py:751-867 | The questions of the labelled rows, or the first row's error, or the error for no question. |
| ReviewTemplates.V1WellFormed | app/vendor_catalog_app/web/routers/demos/common.py:243-272 | Every question of a version 1 template is well formed for scoring. |
| ReviewTemplates.V2WellFormed | app/vendor_catalog_app/web/routers/demos/common.py:325-382 | Every question of a version 2 template is well formed: weights in range, a scale that is not empty, options never heavier than the maximum. |
| ReviewTemplates.FormWellFormed | app/vendor_catalog_app/web/routers/demos/common.py:812-844 | Every question accepted from the form is well formed. |
| ReviewTotals.CriterionIs | app/vendor_catalog_app/web/routers/demos/common.py:243-272 | A version 1 criterion with a label is a scale of weight 1 from 0, in steps of a tenth, to the maximum score entered, when that is from 1 to 100, or to 10 when none is. |
| ReviewTotals.ItemIs | app/vendor_catalog_app/web/routers/demos/common.py:305-382 | A version 2 item keeps its kind, its weight, scale and options where they are within the limits, and its best answer weighs what its heaviest option does, at least 0.01. |
| ReviewTotals.OptionIs | app/vendor_catalog_app/web/routers/demos/common.py:335-353 | An option with a label keeps it, its value but for case, and a weight from 0 to 100. |
| ReviewTotals.RowErrorIs | app/vendor_catalog_app/web/routers/demos/common.py:800-830 | A row of the form is refused exactly when its scale is empty, a kind that needs two options gets one, or the number of weights differs from that of the options. |
| ReviewTotals.RowFieldsAre | app/vendor_catalog_app/web/routers/demos/common.py:790-866 | A question entered in the form keeps the kind, label, weight and scale entered where they are within the limits, and its best answer weighs what its heaviest option does, at least 0.01. |
| ReviewTotals.RowOptionsAre | app/vendor_catalog_app/web/routers/demos/common.py:808-843 | The options entered keep value, label and weight in their order; without weights each weighs 1, except the second of a yes or no question, which weighs 0. |
| ReviewScoring.MatchAnswers | app/vendor_catalog_app/web/routers/demos/common.py:932-941 | Each counted answer finds the first option with its value, ignoring case, or the whole answer is invalid. |
| ReviewScoring.BuildSubmission | app/vendor_catalog_app/web/routers/demos/common.py:870-993 | The loop stops at the first question in error; otherwise it returns the rows, the totals and the overall score, which ReviewTotals.SubmissionIs states from the questions and the answers alone. |
| ReviewTotals.AnswerIs | app/vendor_catalog_app/web/routers/demos/common.py:875-982 | Each question of a template: a header is skipped; the answer is refused with the right error exactly when missing, no number, off the scale or no option; an accepted one carries the weight of its own question, its place on the scale or the mean weight of the options it names, and as its maximum the weight times 1 or times the heaviest option. |
| ReviewTotals.FormOutcome | app/vendor_catalog_app/web/routers/demos/common.py:870-896 | A form is accepted exactly when no answer is refused; otherwise its error is that of the first refused one. |
| ReviewTotals.TotalsAre | app/vendor_catalog_app/web/routers/demos/common.py:965-968 | The earned points are the sum of weight times worth over the answered questions, the possible ones the sum of weight times the worth of the best answer. |
| ReviewTotals.RowsAre | app/vendor_catalog_app/web/routers/demos/common.py:969-982 | The stored rows are those of the questions that are no headers, in order, each with its own weight, its rounded points and ten times their quotient. |
| ReviewTotals.SubmissionIs | app/vendor_catalog_app/web/routers/demos/common.py:870-993 | The submission of an accepted form: those rows, the rounded earned and possible points, and as the overall score ten times their quotient, rounded, or 0 when nothing could be earned. |
| ReviewBounds.SnapIsNearest | app/vendor_catalog_app/web/routers/demos/common.py:917-918 | A scale answer is moved to the nearest grid point, to within half a millionth. |
| ReviewBounds.ScaleScore | app/vendor_catalog_app/web/routers/demos/common.py:913-925 | An accepted scale answer scores exactly its place on the scale: the clamp to [0, 1] changes nothing. |
| ReviewBounds.OptionScore | app/vendor_catalog_app/web/routers/demos/common.py:926-957 | An accepted option answer earns between 0 and the question's maximum, which is positive. |
| ReviewBounds.AnswerInBounds | app/vendor_catalog_app/web/routers/demos/common.py:898-968 | Each answer earns between 0 and its maximum, which is 0 exactly for the kinds that are not scored. |
| ReviewBounds.AcceptedFormsAnswerAll | app/vendor_catalog_app/web/routers/demos/common.py:881-896 | A form is accepted only if every question but the section headers has an answer, whatever its required field says. |
| ReviewBounds.ScoreAllInBounds | app/vendor_catalog_app/web/routers/demos/common.py:870-982 | An accepted form has one answer in bounds per question that is not a section header, in question order. |
| ReviewBounds.TotalsBound | app/vendor_catalog_app/web/routers/demos/common.py:967-968 | A bound that holds for every answer's score holds for the totals. |
| ReviewBounds.OverallBetween | app/vendor_catalog_app/web/routers/demos/common.py:984-986 | The exact overall score lies between the lowest and the highest exact answer score. |
| ReviewBounds.SubmissionBounds | app/vendor_catalog_app/web/routers/demos/common.py:870-993 | For every well-formed template and accepted form: stored rows within bounds, overall in [0, 10] and between two stored answer scores, or 0 when nothing is scored. |
| ReviewBounds.StoredFormScoresTheSame | app/vendor_catalog_app/web/routers/demos/common.py:288-397 | A question entered in the form, stored and read back is kept and scores all answers as before; only its required field and a blank at the cut end of its label may change. |
| TemplateLibrary.GroupByKey | app/vendor_catalog_app/web/routers/demos/common.py:429-439 | Groups the readable rows by key, keys in order of first appearance, versions in row order. |
| TemplateLibrary.BuildIndex | app/vendor_catalog_app/web/routers/demos/common.py:429-473 | One entry per key, for its newest version; inactive ones are left out unless asked for. |
| TemplateLibrary.Library.Scan | app/vendor_catalog_app/web/routers/demos/writes.py:61-68 | Finds the first entry with the key. |
| TemplateLibrary.Library.NextTemplateVersion | app/vendor_catalog_app/web/routers/demos/writes.py:61-68 | 1 for a new key, otherwise one more than the key's current version. |
| TemplateHistory.SaveKeepsLog | app/vendor_catalog_app/web/routers/demos/writes.py:208-250 | A save, accepted or in error, leaves every key with versions exactly 1, 2, ... |
| TemplateHistory.CopyKeepsLog | app/vendor_catalog_app/web/routers/demos/writes.py:271-311 | So does a copy of any key, known or not. |
| TemplateHistory.DeleteKeepsLog | app/vendor_catalog_app/web/routers/demos/writes.py:322-364 | So does a delete of any key, known or not, deleted or not. |
| TemplateHistory.StoredAreKept | app/vendor_catalog_app/web/routers/demos/common.py:288-397 | Stored questions are all read back. |
| TemplateHistory.VersionsAre | app/vendor_catalog_app/web/routers/demos/common.py:429-456 | A key's newest version in the catalogue is the last note appended for it. |
| TemplateHistory.CatalogueShowsLast | app/vendor_catalog_app/web/routers/demos/common.py:429-473 | A key's entry is its last note, with version the number of its notes, and it is listed as active exactly when that note is not a delete. |
| TemplateHistory.StepKeepsLog | app/vendor_catalog_app/web/routers/demos/writes.py:208-364 | Each save, copy or delete keeps every key's versions exactly 1, 2, ... |
| TemplateHistory.RunKeepsLog | app/vendor_catalog_app/web/routers/demos/writes.py:208-364 | So does any run of them below the row limit. |
| TemplateHistory.RunOnlyAppends | app/vendor_catalog_app/web/routers/demos/writes.py:208-364 | Nothing is ever removed from the log or changed in it. |
| TemplateHistory.DeleteTwice | app/vendor_catalog_app/web/routers/demos/writes.py:340-364 | Deleting a key again appends nothing. |
| TemplateHistory.SavedIsActive | app/vendor_catalog_app/web/routers/demos/writes.py:208-250 | A saved key is listed as active, with the next version and the saved questions as read back. |
| TemplateCopies.ReadAgainIff | app/vendor_catalog_app/web/routers/demos/common.py:288-397 | A question that was read, stored and read again is kept, with every field scoring uses, if and only if it is no scale reaching beyond 1000 from below 1000. |
| TemplateCopies.ScoresSameIff | app/vendor_catalog_app/web/routers/demos/common.py:288-397 | Stored and read again, a question scores every answer as before if and only if it is no such scale, or no answer lands above the bottom of the scale. |
| TemplateCopies.StoredAgainScoresTheSame | app/vendor_catalog_app/web/routers/demos/common.py:288-397 | Questions without such a scale, stored and read again, score every form exactly as before, errors included. |
| TemplateCopies.CopyCanNarrowScale | app/vendor_catalog_app/web/routers/demos/common.py:325-328 | A stored scale of 999.5 to 5 is read as 999.5 to 1000.5 and, stored again, as 999.5 to 1000, so the answer 1000 scores half before and in full after. |
| TemplateCopies.RunKeepsStable | app/vendor_catalog_app/web/routers/demos/writes.py:208-364 | No run of saves, copies and deletes ever stores such a scale. |
| TemplateCopies.CopiedIsActive | app/vendor_catalog_app/web/routers/demos/writes.py:271-311 | A copy is listed as active at version 1 of its own key, with the title of a copy and all questions of the original, which score every form as the original unless a scale is cut. |
| TemplateCopies.CopiesScoreTheSame | app/vendor_catalog_app/web/routers/demos/writes.py:271-311 | After any run from an empty log a copy scores every form exactly as its original. |
| TemplateCopies.DeletedIsHidden | app/vendor_catalog_app/web/routers/demos/writes.py:322-364 | After a delete the key is not listed as active, but its record is still there with its title and all its questions, which score every form as before unless a scale is cut. |
| TemplateShows.SaveShows | app/vendor_catalog_app/web/routers/demos/writes.py:208-250 | A saved template is listed as active under the key of the draft, or the new one, with its title, or the default title when that is blank, its instructions, and the time of the save. |
| TemplateShows.CopyShows | app/vendor_catalog_app/web/routers/demos/writes.py:295-311 | A copy is listed as active under the title "Copy of " and that of the original, cut at 140 characters, with the instructions of the original and the time of the copy. |
| TemplateShows.DeleteShows | app/vendor_catalog_app/web/routers/demos/writes.py:340-364 | A deleted template keeps its instructions; a delete that takes effect gives it the next version and its own time. |
| TemplateShows.OthersStay | app/vendor_catalog_app/web/routers/demos/writes.py:208-364 | A save, copy or delete leaves every other template as it was, listed or not. |
| KeyedTables.GatherIs | app/vendor_catalog_app/web/routers/imports/apply_ops.py:42-65 | A key is loaded for a scope exactly when some stored row of the scope has it. |
| KeyedTables.AddAllKeepsApart | app/vendor_catalog_app/web/routers/imports/apply_ops.py:172-219 | No added row shares a key with a row before it in its scope. |
| KeyedTables.AddingAgainAddsNothing | app/vendor_catalog_app/web/routers/imports/apply_ops.py:172-367 | Adding the same rows to any table grown from the result adds nothing. |
| ImportDedupe.ImportApplyContext.constructor | app/vendor_catalog_app/web/routers/imports/apply_ops.py:33-40 | A new context caches nothing. |
| ImportDedupe.ImportApplyContext.ResolveOfferingVendor | app/vendor_catalog_app/web/routers/imports/apply_ops.py:156-170 | The vendor of an offering, from the cache or the repository, is what the repository says; blank when unknown. |
| ImportDedupe.ImportApplyContext.ResolveVendor | app/vendor_catalog_app/web/routers/imports/apply_ops.py:688-696 | A row's vendor is its own id, else the resolved one, else that of its offering. |
| ImportDedupe.ImportApplyContext.ResolveScope | app/vendor_catalog_app/web/routers/imports/apply_ops.py:675-696 | A row belongs to its vendor, or to its offering, found as ImportPlaces.ScopeForIs states it. |
| ImportDedupe.ImportApplyContext.LoadContactKeys | app/vendor_catalog_app/web/routers/imports/apply_ops.py:42-65 | Returns the keys a fresh load would give, from the cache when it has them. |
| ImportDedupe.ImportApplyContext.LoadOwnerKeys | app/vendor_catalog_app/web/routers/imports/apply_ops.py:67-107 | The same for owners of a vendor or an offering. |
| ImportDedupe.ImportApplyContext.LoadContractKeys | app/vendor_catalog_app/web/routers/imports/apply_ops.py:138-154 | The same for the contract numbers of a vendor. |
| ImportDedupe.ImportApplyContext.MaybeAddContact | app/vendor_catalog_app/web/routers/imports/apply_ops.py:172-219 | Adds exactly what an uncached check of the stored rows would add, and keeps every cached set equal to a fresh load. |
| ImportDedupe.ImportApplyContext.MaybeAddOwner | app/vendor_catalog_app/web/routers/imports/apply_ops.py:231-284 | The same for owners. |
| ImportDedupe.ImportApplyContext.MaybeCreateContract | app/vendor_catalog_app/web/routers/imports/apply_ops.py:336-367 | The same for contracts. |
| ImportDedupe.ImportApplyContext.ApplyContacts | app/vendor_catalog_app/web/routers/imports/apply_ops.py:712-725 | The contact loop adds the rows in order and counts what it writes. |
| ImportDedupe.ImportApplyContext.ApplyOwners | app/vendor_catalog_app/web/routers/imports/apply_ops.py:698-710 | The owner loop, the same way. |
| ImportDedupe.ImportApplyContext.ApplyContracts | app/vendor_catalog_app/web/routers/imports/apply_ops.py:760-780 | The contract loop, the same way. |
| ImportDedupe.ImportApplyContext.ApplyAreaRows | app/vendor_catalog_app/web/routers/imports/apply_ops.py:675-780 | The five loops resolve the vendor and offering of each row as ImportPlaces states them, write what the uncached rules say, and count for each area exactly the rows it wrote. |
| ImportPlaces.OfferingForIs | app/vendor_catalog_app/web/routers/imports/apply_ops.py:679-686 | The offering of a row is its own id; without one that of its source group; without either the primary one; without any of these the only one created, and none when none or several were. |
| ImportPlaces.VendorForIs | app/vendor_catalog_app/web/routers/imports/apply_ops.py:688-696 | The vendor of a row is its own id; without one the resolved one; without either that of its offering when known; else none. |
| ImportPlaces.ScopeForIs | app/vendor_catalog_app/web/routers/imports/apply_ops.py:675-780 | A row is written to a scope exactly when vendor, and for an offering row offering, are those ids and not blank. |
| ImportPlaces.AddedContactIs | app/vendor_catalog_app/web/routers/imports/apply_ops.py:712-758 | Every contact the area rows add is what some staged row says, under the vendor and offering that row has, with its name, or its email, or a fixed text, and a blank type read as business. |
| ImportPlaces.AddedOwnerIs | app/vendor_catalog_app/web/routers/imports/apply_ops.py:698-740 | Every owner they add is what some staged row says, under the vendor and offering that row has, a blank role read as business owner. |
| ImportPlaces.AddedContractIs | app/vendor_catalog_app/web/routers/imports/apply_ops.py:760-780 | Every contract they add is what some staged row says, under the vendor and offering that row has, a blank status read as active. |
| ImportPlaces.ContactIsThere | app/vendor_catalog_app/web/routers/imports/apply_ops.py:712-758 | Each contact that a staged row says is stored afterwards in its scope, itself or as a duplicate or lookalike. |
| ImportPlaces.OwnerIsThere | app/vendor_catalog_app/web/routers/imports/apply_ops.py:698-740 | So is each owner. |
| ImportPlaces.ContractIsThere | app/vendor_catalog_app/web/routers/imports/apply_ops.py:760-780 | For each contract that a staged row says, one of its vendor with its number, ignoring case, is stored afterwards. |
| ImportTheorems.SharedKeysIff | app/vendor_catalog_app/web/routers/imports/apply_ops.py:54-64 | Two contacts share a key exactly when they are duplicates (an email, a phone of seven digits or more, or a name and type in common) or lookalikes. |
| ImportTheorems.DigitsAre | app/vendor_catalog_app/web/routers/imports/apply_ops.py:11-12 | A phone is compared by its digit characters, in order. |
| ImportTheorems.JoinIff | app/vendor_catalog_app/web/routers/imports/apply_ops.py:63-64 | Two pairs of texts joined by a bar agree exactly when the pairs do, or one is the other with a bar shifted. |
| ImportTheorems.NameKeyIff | app/vendor_catalog_app/web/routers/imports/apply_ops.py:63-64 | Two name keys agree exactly when name and type do, ignoring case, or one contact is the other with a bar shifted between name and type. |
| ImportTheorems.SkippedWithoutDuplicateIff | app/vendor_catalog_app/web/routers/imports/apply_ops.py:195-204 | Some stored contact makes a contact be skipped without being a duplicate if and only if the name or type of the latter has a bar at which the joined text splits another way into a name and a type. |
| ImportTheorems.SkippedIff | app/vendor_catalog_app/web/routers/imports/apply_ops.py:195-204 | A contact is skipped exactly when a stored one of its scope is a duplicate or a lookalike of it. |
| ImportTheorems.OwnerKeyIff | app/vendor_catalog_app/web/routers/imports/apply_ops.py:67-107 | Two owner keys agree exactly when principal and role do, ignoring case, or one pair is the other with a bar shifted. |
| ImportTheorems.OwnerSkippedIff | app/vendor_catalog_app/web/routers/imports/apply_ops.py:231-284 | An owner is skipped exactly when a stored one of its scope is a duplicate or a lookalike of it. |
| ImportTheorems.OwnerSkippedWithoutDuplicateIff | app/vendor_catalog_app/web/routers/imports/apply_ops.py:231-284 | Some stored owner makes an owner be skipped without being a duplicate if and only if principal and role, joined by a bar, can be told apart in another way. |
| ImportTheorems.NoDuplicateContacts | app/vendor_catalog_app/web/routers/imports/apply_ops.py:172-219 | No contact added by any list of rows duplicates an earlier one of its scope, stored before or just added. |
| ImportTheorems.ApplyingAgainWritesNothing | app/vendor_catalog_app/web/routers/imports/apply_ops.py:698-780 | Contact, owner and contract rows that resolve to the same vendors and offerings as before write nothing when applied again, however much was added since. |
| ImportTheorems.ImportingAgainWritesNothing | app/vendor_catalog_app/web/routers/imports/apply_ops.py:698-780 | So do the contact, owner and contract rows of a whole import, as long as their vendor and offering ids resolve as before. |
| DdlScanner.SplitTopLevelCommas | setup/production_push/validate_production_push_contract.py:91-127 | The scanning loop, with its look-ahead for doubled quotes and its clamped depth, returns the stripped non-blank pieces of the one-character-at-a-time scan. |
| DdlScanner.FindClose | setup/production_push/validate_production_push_contract.py:171-190 | The body scan finds the first place where the opened parenthesis is closed outside quotes, or that there is none. |
| DdlScanner.ParseColumns | setup/production_push/validate_production_push_contract.py:130-144 | The columns are those that the parts of the body declare. |
| DdlNames.ClauseIs | setup/production_push/validate_production_push_contract.py:133-138 | A part is a table clause exactly when it starts, ignoring case, with one of the six clause words. |
| DdlNames.ColumnIff | setup/production_push/validate_production_push_contract.py:130-144 | A part declares a column exactly when it is no table clause and its first word, without the quote marks around it, is an identifier; the column is that identifier in lower case. |
| CreateHead.TryIsSound | setup/production_push/validate_production_push_contract.py:46-48 | Whatever a backtracking match of any such pattern returns, the pattern admits. |
| CreateHead.TryIsComplete | setup/production_push/validate_production_push_contract.py:46-48 | A backtracking match finds something whenever the pattern admits anything. |
| CreateHead.OneReading | setup/production_push/validate_production_push_contract.py:46-48 | A pattern whose repetitions are followed by something else and whose alternatives exclude each other has at most one reading at a place. |
| CreateHead.GuardIsNoName | setup/production_push/validate_production_push_contract.py:46-48 | No text can be read both with IF NOT EXISTS and with a table named IF. |
| CreateHead.WrittenIff | setup/production_push/validate_production_push_contract.py:46-48 | A head is matched at a place exactly when one is written out there from a word boundary, and the name and the end are those of what is written. |
| CreateHead.SpellingIs | setup/production_push/validate_production_push_contract.py:46-48 | What is written there is CREATE, TABLE and perhaps IF NOT EXISTS, in any case and with blanks between, a name of word characters, quote marks, dots, dollar signs and braces, perhaps blanks, and an opening parenthesis; the name is what is captured. |
| CreateHead.SearchIff | setup/production_push/validate_production_push_contract.py:164-166 | The search returns the reading at the first place, at or after the index, where a head can be read. |
| DdlTheorems.NormalisedIsPlain | setup/production_push/validate_production_push_contract.py:84-88 | A normalised name holds no dot, no quote mark, no capital and no outer blank. |
| DdlTheorems.NormalisedTwice | setup/production_push/validate_production_push_contract.py:84-88 | Normalising a normalised name leaves it. |
| DdlNames.PlainNameIs | setup/production_push/validate_production_push_contract.py:84-88 | A table named alone, with or without quote marks around it, is known by that name in lower case. |
| DdlNames.QualifiedNameIs | setup/production_push/validate_production_push_contract.py:84-88 | A table named with a schema is known by the last name only, in lower case and without its quote marks. |
| DdlScanner.FileInventory | setup/production_push/validate_production_push_contract.py:163-194 | The loop over one file ends, skips heads that are never closed, and adds the columns of all its bodies to those known before, by table name. |
| DdlScanner.Inventory | setup/production_push/validate_production_push_contract.py:147-196 | The loop over the files returns the tables of all files together and the number of tables of each. |
| DdlTheorems.PiecesJoin | setup/production_push/validate_production_push_contract.py:91-127 | Joined by commas the pieces are the whole text. |
| DdlTheorems.NothingElseIsLost | setup/production_push/validate_production_push_contract.py:91-127 | Splitting loses nothing but separators, surrounding blanks and blank parts. |
| DdlTheorems.SplitIsSeparable | setup/production_push/validate_production_push_contract.py:91-127 | Each part holds no separating comma, is stripped and not blank, and all but the last end outside parentheses and quotes. |
| DdlTheorems.PartIsWhole | setup/production_push/validate_production_push_contract.py:91-127 | Splitting a returned part yields just that part. |
| DdlTheorems.SplitOfJoin | setup/production_push/validate_production_push_contract.py:91-127 | Splitting the parts joined by commas yields the same parts. |
| DdlTheorems.CloseIsUnique | setup/production_push/validate_production_push_contract.py:171-190 | A body that starts at a parenthesis has one end only: none is shorter or longer. |
| DdlTheorems.BodyIsBalanced | setup/production_push/validate_production_push_contract.py:171-194 | An extracted body is balanced and is followed by its unquoted closing parenthesis. |
| DdlTheorems.ClampNeverFires | setup/production_push/validate_production_push_contract.py:111-113 | On an extracted body the splitter never closes a parenthesis at depth 0. |
| DdlTheorems.BodyPartsAreBalanced | setup/production_push/validate_production_push_contract.py:91-127 | Every part of an extracted body ends at depth 0 outside quotes. |
| DdlTheorems.StatementsAreBodies | setup/production_push/validate_production_push_contract.py:163-196 | Every table of the inventory has a true body, and the bodies follow one another without overlap. |
| DdlTheorems.InventoryHolds | setup/production_push/validate_production_push_contract.py:147-196 | A table is in the inventory exactly when some file has a statement of that name, with exactly the columns that some such statement declares, whatever the order of files and statements. |

## Left out

- Routers, permissions, redirects, flash messages, audit entries, usage events, logging, statsd and environment parsing: request plumbing or single-branch checks.
- SQL text, SQL rewriting, the SQL policy of production, credentials, the SDK and pandas: a statement is an opaque key, a result an opaque value, a table a sequence of rows.
- The local database branch and the unpooled branch of `_connection`: they open and close one connection and share no state.
- Interruptions that are not an `Exception`, such as a keyboard interrupt between counting a slot and connecting.
- The order in which waiters are notified: any waiter may be woken, which covers the real order.
- Coherence of the query cache across threads, where a slow read can store its frame after another thread's clear.
- Inclusion of `get_or_load` traces: a miss refreshes the expiry, so caches of different limits see different traces.
- `_sanitize_identity_value`, which normalises rate-limiter keys, and cleaning of metric labels: keys and labels are compared as given.
- Counters and gauges of the metrics endpoint other than the histograms and the alert gauge, and the text escaping of labels.
- Floating point: sums, averages, 0.95 and rounding are exact, and infinite or undefined numbers are not modelled.
- Default rows shown for a lookup type without stored rows, lookup statuses, and parsing of lookup dates: a type has stored rows and windows are given as seconds.
- Derivation of question codes and option values from labels, help text, layout and placeholders: they do not enter a score.
- The final ordering of the template catalogue by title, and logs of 2000 notes or more.
- Failing loads and failing writes of the import context: a load returns the stored rows and a write stores what it is given.
- The import actions that choose, create, merge or skip a vendor, offering or project, and project, invoice and payment rows: the vendor of each offering is fixed while the contact, owner and contract rows of one imported row are applied, and what that row created is given.
- The view inventory, reading the files, and case folding, word characters and blanks outside ASCII in the CREATE TABLE pattern.
- Cache keys compare exactly in the query cache, while Python's tuple equality identifies the parameters 1, 1.0 and True.
- A closed pool makes a cached client still answer where an uncached one raises: the model's database is always reachable.
- StoredFormScoresTheSame: the stored response text is not part of the comparison, because the model keeps scores and not the texts of answers.
