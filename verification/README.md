# Proved properties of the backend

A Dafny 4.11 model of five parts of the backend that keep state, cache, parse or transform, with
proofs of what they promise. `dafny verify dfyconfig.toml` checks all of it; nothing is assumed
besides the parameters named below.

**Stable row numbering and its caches.** Every Explorer row has a persistent number. Requests read
the number table without a lock, take the lock of the ACP when rows are missing, and number drafts
provisionally. `ItemRowNumbering` says what one transaction does to the table.
`ItemRowNumberingService` runs one request statement by statement while, at every `await`, other
requests commit arbitrary transactions (a script that the contracts quantify over).
`UnitParserService` is the bounded retry loop that compares revisions of the table;
`NumberedItemListCache` keeps its results under a key that a load may change itself;
`AsyncLruCache` merges loads in flight. Main result: whatever the cache serves is what an uncached
numbering would produce (`HitIsUncachedNumbering`), given that a revision does not come back after
the table has changed; `ExactExactlyWithoutRecurrence` shows that this is exactly what is needed.

**Item Explorer.** `ExplorerNormalizers` are the normalisers of stored states, with the exact
condition under which they are fixpoints. `ItemExplorerState` is the draft/published machine with
its versions and change log, `ItemExplorerStateService` the transactions and the viewer cache, whose
readers are cut at every `await`.

**Item parameter import.** `ItemParameterImport` turns CSV lines into groups, `ItemParameterPlan`
groups into mutations, `ItemParameterOutcome` says what a plan does to every cell,
`ItemParameterResults` proves order independence and what Explorer rows show afterwards,
`ItemParameterLines` says the same of the lines of an import, `ItemParameterConflicts` exactly which
imports go through, `ItemParameterOrder` exactly when the order of lines does not matter,
`ItemParameterCells` what names and cells mean, and `ItemParameterImportPipeline` holds the loops.
`ItemRowKey` is the printer and parser of row keys.

**Review.** `ReviewPolicy` decides who sees and may choose what, `ReviewWorkspace` is the joint state
machine of comments and review configuration under their common lock, `ReviewChanges` says exactly
which changes it accepts and what they do, `ReviewThreads` are the views, `ReviewExport` the rows of an
export, and `ReviewService` the operations that change the store.

**Booklets and files.** `BookletParser` reads the nested and the flat encoding of blocks,
`ReviewManifest` walks booklets, `ReviewBooklets` says what a manifest lists, `RegisterBooklets` links
uploaded ones, `CredentialFile` reads access lists. `FileMutation` says what an upload does to the table of files, `FileUploads` what any
number of uploads under way keep, with failure at any point, and `FileMutationService` runs one
upload statement by statement while others go on.

`JsMap`, `JsObjects`, `Sorting`, `Text` and `Outcomes` hold what the modules share: insertion-ordered
maps and objects, stable sorting, `trim`, decimal numbers, results.

Where the source changes state the model does: caches, services and builders are classes whose
methods are proved against functions of the old state, and the theorems are about those functions.
Concurrency is modelled by cutting asynchronous functions at `await`; a section that holds a row lock
is one step. Parameters stand for what the program takes from outside: the collators (a total
preorder; antisymmetric where ties would matter), the revision and link digests, `String`, `Number`
and `toUpperCase` conversions, new ids, file paths and times, known members and targets.

Where the code does less than one might expect, the exact condition is stated: normalising a state
twice differs from normalising it once exactly if a column name was cut right behind white space
(`NormalizedFixpointExactly`, with the input `SecondTimeCanDiffer`); the retry loop is exact exactly
if revisions do not recur (`ExactExactlyWithoutRecurrence`); the order of the lines of an import never
matters exactly if the uuids of the catalogue do not collide (`OrderNeverMattersExactly`, with the
input `OrderCanMatter`); and a written value is shown exactly if the Explorer finds its row
(`RowCellsAreShown`, `RowNeverListed`, `UntrimmedShowsOld`).

## Model

| member | source | states |
|---|---|---|
| `JsMaps.EvictOldest` | backend/src/files/async-lru-cache.ts:85-91 | the overflow loop leaves exactly the youngest `maxEntries` entries, in their order |
| `JsMaps.DeleteWhere` | backend/src/files/async-lru-cache.ts:68-74 | deleting while iterating over the live key list removes exactly the selected keys and keeps the order of the rest |
| `AsyncLruCaches.EveryStateIsSound` | backend/src/files/async-lru-cache.ts:26-97 | in every interleaving of calls, completions, failures, deletions and clears: at most `maxEntries` entries, each under the key it was created for; a stored entry is a load in flight or a settled, cacheable value, never a failed or uncacheable one |
| `AsyncLruCaches.GoneForGood` | backend/src/files/async-lru-cache.ts:26-97 | an entry that has left the map never comes back, and the outcome that the callers of one load get is fixed once it has settled |
| `AsyncLruCaches.CompletionTouchesOnlyItsEntry` | backend/src/files/async-lru-cache.ts:93-97 | a stale completion leaves the successor under the same key, and every other entry, in place |
| `AsyncLruCaches.RemovalsAreExact` | backend/src/files/async-lru-cache.ts:41-78 | what each segment takes out of the map: a failed or uncacheable load its own entry, a deletion its keys; every other key stays with its entry |
| `AsyncLruCaches.CallIsStored` | backend/src/files/async-lru-cache.ts:26-39 | a call finds the entry of its key or stores a new one as the youngest, beside as many of the youngest others as there is room for |
| `AsyncLruCaches.LoadsAreAnswered` | backend/src/files/async-lru-cache.ts:41-62 | in every run an entry has, from the end of its load on, the value or the error of that load |
| `AsyncLruCaches.OrderIsRecency` | backend/src/files/async-lru-cache.ts:26-97 | in every interleaving of calls, completions, failures, deletions and clears the map lists its keys in the order of their last use, the last use being read off the events |
| `AsyncLruCaches.KeepsMostRecentlyUsed` | backend/src/files/async-lru-cache.ts:80-91 | as a corollary, exactly the `maxEntries` most recently requested keys are held as long as nothing is removed otherwise |
| `AsyncLruCaches.AsyncLruCache.GetOrLoad` | backend/src/files/async-lru-cache.ts:26-62 | the segment before the `await`: touch or insert and evict; the status tells a new load, one in flight and a settled value apart |
| `AsyncLruCaches.AsyncLruCache.Resolve` | backend/src/files/async-lru-cache.ts:48-54 | a load that ends with a value: settled, or dropped from the map if it must not be cached and is still current |
| `AsyncLruCaches.AsyncLruCache.Fail` | backend/src/files/async-lru-cache.ts:56-59 | a failed load leaves the map if it is still current |
| `AsyncLruCaches.AsyncLruCache.Delete` | backend/src/files/async-lru-cache.ts:64-66 | removes one key and reports whether it was there |
| `AsyncLruCaches.AsyncLruCache.DeleteWhere` | backend/src/files/async-lru-cache.ts:68-74 | removes the selected keys |
| `ItemRowNumbering.CompareRowsIsOrder` | backend/src/files/item-row-numbering.service.ts:280-304 | the comparison by item id, sub id, unit id and row key is a total preorder whenever the collator is one |
| `ItemRowNumbering.FirstDifferenceDecides` | backend/src/files/item-row-numbering.service.ts:280-304 | one row stands before another exactly if it comes first in the first of the four fields in which they do not tie |
| `ItemRowNumbering.NormalizedRows` | backend/src/files/item-row-numbering.service.ts:236-246 | normalised rows have distinct, trimmed, non-blank keys, and exactly the keys that some input row has after trimming |
| `ItemRowNumbering.NormalizedRowsComeFrom` | backend/src/files/item-row-numbering.service.ts:236-246 | each is, but for the trimmed key, the first input row of its key |
| `ItemRowNumbering.AssigningKeepsNumbers` | backend/src/files/item-row-numbering.service.ts:111-135 | persisting missing rows changes no number; the new rows get the contiguous block above the maximum, in row order |
| `ItemRowNumbering.AssigningNumbersAll` | backend/src/files/item-row-numbering.service.ts:111-135 | afterwards every requested row has a number |
| `ItemRowNumbering.AssigningIsOneToOne` | backend/src/files/item-row-numbering.service.ts:111-135 | row keys and positive numbers stay one to one |
| `ItemRowNumbering.ProvisionalIsAssigned` | backend/src/files/item-row-numbering.service.ts:148-176 | provisional numbers are those that persisting would assign in the same table |
| `ItemRowNumbering.AssigningAgain` | backend/src/files/item-row-numbering.service.ts:102-109 | assigning rows that all have numbers changes nothing and agrees with looking them up |
| `ItemRowNumbering.RenumberingIsGapless` | backend/src/files/item-row-numbering.service.ts:178-211 | a renumbering leaves exactly the numbers 1..n in row order and no other key |
| `ItemRowNumbering.RenumberingFollowsOrder` | backend/src/files/item-row-numbering.service.ts:178-211 | a renumbering gives the smaller number to the row that stands first |
| `ItemRowNumbering.AssigningFollowsOrder` | backend/src/files/item-row-numbering.service.ts:111-135 | so does an assignment among the rows that it numbers, and rows that had a number stay below them |
| `ItemRowNumbering.EveryVersionIsOneToOne` | backend/src/files/item-row-numbering.service.ts:92-211 | after any sequence of committed assignments and renumberings keys and numbers are one to one |
| `ItemRowNumbering.NumbersLastUntilRenumbering` | backend/src/files/item-row-numbering.service.ts:92-146 | whatever the table says stays true until the next renumbering |
| `ItemRowNumberingServices.ItemRowNumberingService.Await` | backend/src/files/item-row-numbering.service.ts:213-234 | while a request waits, other requests commit the transactions of the script, any of them and none besides; the table stays a history of legal ones |
| `ItemRowNumberingServices.ItemRowNumberingService.FindAssignedNumbers` | backend/src/files/item-row-numbering.service.ts:252-278 | one query returns the persisted numbers of exactly the given rows |
| `ItemRowNumberingServices.ItemRowNumberingService.Maximum` | backend/src/files/item-row-numbering.service.ts:122-123 | the largest number of the table, 0 when it is empty |
| `ItemRowNumberingServices.ItemRowNumberingService.InsertMissing` | backend/src/files/item-row-numbering.service.ts:111-135 | the critical section re-reads, inserts what is still missing and returns what the table then says |
| `ItemRowNumberingServices.ItemRowNumberingService.AssignNumbers` | backend/src/files/item-row-numbering.service.ts:92-146 | under any interleaving the answer is complete and true of the table at one moment during the call; a revision, if given, is that of the table written in the critical section |
| `ItemRowNumberingServices.ItemRowNumberingService.AssignProvisionalNumbers` | backend/src/files/item-row-numbering.service.ts:148-176 | the answer combines the persisted numbers of one moment with the maximum of a later one |
| `ItemRowNumberingServices.ItemRowNumberingService.RecalculateNumbers` | backend/src/files/item-row-numbering.service.ts:178-211 | replaces the table by the numbers 1..n of the normalised rows and returns it |
| `ItemRowNumberingServices.ItemRowNumberingService.GetRevision` | backend/src/files/item-row-numbering.service.ts:35-76 | the revision of the table at some moment during the call |
| `UnitParserServices.HaveSamePartialCreditRows` | backend/src/files/unit-parser.service.ts:1049-1068 | comparing key counts and looking one side up in the other decides whether the same partial rows exist on both sides |
| `UnitParserServices.SetItemRowNumbers` | backend/src/files/unit-parser.service.ts:939-946 | writes the numbers into the items in place and changes nothing else of them |
| `UnitParserServices.NumbersAreShown` | backend/src/files/unit-parser.service.ts:939-946 | each item then shows the number of its row, if there is one |
| `UnitParserServices.AttemptPublished` | backend/src/files/unit-parser.service.ts:831-850 | one attempt with differing published rows: persist those, number the draft provisionally, compare revisions; it is accepted exactly if the second revision is that of the first step, which only commits of others in between can prevent |
| `UnitParserServices.AttemptActive` | backend/src/files/unit-parser.service.ts:851-873 | one attempt without them: the revision of the critical section is accepted at once, an unlocked answer exactly if the revision read after it is the expected one |
| `UnitParserServices.ApplyItemRowNumbersWithStableRevision` | backend/src/files/unit-parser.service.ts:817-879 | under any interleaving: if it returns and no revision recurs, the items carry the uncached numbering of a table whose revision is the returned one; it fails only if others commit at least twice while it runs, three times if the revision it started with was current, so never if nobody else writes |
| `UnitParserServices.SuccessIsExact` | backend/src/files/unit-parser.service.ts:817-879 | what a successful attempt computed from reads at several moments equals the numbering of the one table whose revision it returns |
| `UnitParserServices.ExactNumbersMeaning` | backend/src/files/item-row-numbering.service.ts:148-176 | in such a numbering a persisted row shows its persisted number, all others show distinct numbers above every persisted one |
| `UnitParserServices.ExactExactlyWithoutRecurrence` | backend/src/files/unit-parser.service.ts:817-879 | over all histories of legal commits to a table with trimmed keys: every load returns the numbering of the table it names, whatever it observes, if and only if no revision comes back after the table has changed |
| `UnitParserServices.RecurrenceBreaksExactness` | backend/src/files/unit-parser.service.ts:865-872 | an input on which it fails: a table that is replaced and restored between two revision reads lets wrong numbers through |
| `NumberedItemListCaches.EveryStateIsSound` | backend/src/files/numbered-item-list.cache.ts:25-115 | over every run of requests, loads, failures, assignments, renumberings and invalidations of many ACPs: at most 100 entries, every settled entry under the key of its own revision, and every value a load ever returned is an exact numbering |
| `NumberedItemListCaches.HitIsUncachedNumbering` | backend/src/files/unit-parser.service.ts:691-715 | a hit serves what an uncached numbering would give in the table whose revision the request had read |
| `NumberedItemListCaches.RequestedIsStored` | backend/src/files/numbered-item-list.cache.ts:25-43 | a request finds the entry of its key or stores a new one as the youngest; the youngest others stay as far as there is room |
| `NumberedItemListCaches.LoadedIsStored` | backend/src/files/numbered-item-list.cache.ts:67-77 | a load that is still current leaves its entry under the key of its own revision, unless one is there, and under no other; all other entries stay |
| `NumberedItemListCaches.LoadedIsFoundAgain` | backend/src/files/numbered-item-list.cache.ts:67-77 | so the next request for that key starts no load |
| `NumberedItemListCaches.FailedIsDropped` | backend/src/files/numbered-item-list.cache.ts:78-81 | a failed load loses its entry and nothing else |
| `NumberedItemListCaches.NumberedItemListCache.GetOrLoad` | backend/src/files/numbered-item-list.cache.ts:25-43 | the segment before the `await`; a found entry sits under its right key |
| `NumberedItemListCaches.NumberedItemListCache.SetBounded` | backend/src/files/numbered-item-list.cache.ts:98-105 | inserts and evicts down to the bound |
| `NumberedItemListCaches.NumberedItemListCache.Settle` | backend/src/files/numbered-item-list.cache.ts:67-77 | the continuation of a load moves the entry to the key of the revision it ended with, unless the entry is no longer current or the key is taken |
| `NumberedItemListCaches.NumberedItemListCache.Fail` | backend/src/files/numbered-item-list.cache.ts:78-81 | a failed load leaves the map if it is still current |
| `NumberedItemListCaches.NumberedItemListCache.Invalidate` | backend/src/files/numbered-item-list.cache.ts:86-91 | removes all entries of one ACP and no other |
| `ExplorerNormalizers.NormalizeTags` | backend/src/item-explorer/item-explorer-state.service.ts:1075-1104 | the loop over tags equals its specification, empty lists kept as tombstones |
| `ExplorerNormalizers.NormalizeWidths` | backend/src/item-explorer/item-explorer-state.service.ts:1231-1255 | both width normalisers: at most 100 or 120 entries, names trimmed then cut, widths rounded and clamped |
| `ExplorerNormalizers.NormalizeItemProperties` | backend/src/item-explorer/item-explorer-state.service.ts:1106-1215 | the loop over items equals its specification property by property |
| `ExplorerNormalizers.TagsKept` | backend/src/item-explorer/item-explorer-state.service.ts:1075-1094 | normalised tags are a fixpoint |
| `ExplorerNormalizers.LabelsKept` | backend/src/item-explorer/item-explorer-state.service.ts:1217-1229 | normalised string lists are a fixpoint |
| `ExplorerNormalizers.LabelsExactly` | backend/src/item-explorer/item-explorer-state.service.ts:1217-1229 | exactly the non-empty trimmed values are labels |
| `ExplorerNormalizers.PropertyKeptExactly` | backend/src/item-explorer/item-explorer-state.service.ts:1106-1215 | exactly which properties of an item, or of one of its rows, are kept as they are |
| `ExplorerNormalizers.ClampIsNearest` | backend/src/item-explorer/item-explorer-state.service.ts:1231-1255 | widths are rounded and kept between 80 and 600 |
| `ExplorerNormalizers.PreviewStartExactly` | backend/src/item-explorer/item-explorer-state.service.ts:1141-1181 | exactly which preview starts are accepted, and what is kept of them |
| `ExplorerNormalizers.ItemsKept` | backend/src/item-explorer/item-explorer-state.service.ts:1106-1215 | normalised item properties are a fixpoint, for items and for partial rows |
| `ExplorerNormalizers.PreviewStartKept` | backend/src/item-explorer/item-explorer-state.service.ts:1145-1181 | an accepted preview start is accepted again unchanged |
| `ExplorerNormalizers.PreviewContextKept` | backend/src/item-explorer/preview-context.ts:1-48 | an accepted preview context is accepted again unchanged |
| `ExplorerNormalizers.WidthsFixpointExactly` | backend/src/item-explorer/item-explorer-state.service.ts:1231-1255 | normalising widths a second time changes nothing if and only if, among the entries looked at, no name with a width is cut right behind white space; the condition is on the raw input |
| `ExplorerNormalizers.ColumnsFixpointExactly` | backend/src/item-explorer/item-explorer-state.service.ts:1257-1285 | the same for all column settings including the table layout |
| `ExplorerNormalizers.NormalizedFixpointExactly` | backend/src/item-explorer/item-explorer-state.service.ts:843-874 | the same for a whole raw state; normalising a second time settles it in every case |
| `ExplorerNormalizers.SecondTimeCanDiffer` | backend/src/item-explorer/item-explorer-state.service.ts:1231-1255 | an input on which the second normalisation differs: a column name of 199 letters, a space and another letter |
| `ItemExplorerState.ApplyItemPatch` | backend/src/item-explorer/item-explorer-state.service.ts:948-973 | the loop over an item patch merges, deletes on `null` and drops items that become empty |
| `ItemExplorerState.MergeDraftPatch` | backend/src/item-explorer/item-explorer-state.service.ts:876-980 | the merged draft, part by part |
| `ItemExplorerState.ReplaceTags` | backend/src/item-explorer/item-explorer-state.service.ts:436-457 | the two loops remove all tags from the item properties and write the new ones |
| `ItemExplorerState.FirstStateIs` | backend/src/item-explorer/item-explorer-state.service.ts:623-735 | the first state is clean and has the items of the ACP, the tags that they have and the columns of the access configuration |
| `ItemExplorerState.LockedIsExact` | backend/src/item-explorer/item-explorer-state.service.ts:239-536 | a call succeeds exactly if it is not based on another version and, for direct changes, no draft is pending; a success raises the version by exactly one, the published version too if it publishes, and logs one entry; a refusal changes nothing |
| `ItemExplorerState.RefusedExactly` | backend/src/item-explorer/item-explorer-state.service.ts:239-536 | a refused call says why: no state, a pending draft, or another version |
| `ItemExplorerState.CallsAreLogged` | backend/src/item-explorer/item-explorer-state.service.ts:982-1013 | the log entry of a call: its change type, what was shown before, what is stored now, both versions and the actor |
| `ItemExplorerState.EveryRunIsInOrder` | backend/src/item-explorer/item-explorer-state.service.ts:239-536 | over every run, refused calls included: published version at most version, CLEAN implies draft = published after normalisation, the item properties of the ACP are the normalised published ones, the last after-state of the log is the current draft and that of the last publishing entry the current published state; the version counts the successes |
| `ItemExplorerState.EntriesFollowEachOther` | backend/src/item-explorer/item-explorer-state.service.ts:982-1013 | a draft change starts from what the log entry before it left behind |
| `ItemExplorerState.UnnamedItemsStay` | backend/src/item-explorer/item-explorer-state.service.ts:948-977 | a patch of item properties leaves every item it does not name exactly as it was, through the final normalisation |
| `ItemExplorerState.PatchedPropertyIs` | backend/src/item-explorer/item-explorer-state.service.ts:937-977 | every property of every item after a patch: the last entry that names the item and gives the property, or removes the item, has its way; otherwise it is what the given items, or those of the draft, say |
| `ItemExplorerState.PatchedParts` | backend/src/item-explorer/item-explorer-state.service.ts:876-946 | tags, order and settings of the surface that a patch gives replace those of the draft, settings one by one; what it does not give stays |
| `ItemExplorerState.PatchedColumns` | backend/src/item-explorer/item-explorer-state.service.ts:876-936 | columns that a patch does not give stay, but for widths whose names end in white space; given ones keep the restriction of the draft unless they say something about it |
| `ItemExplorerState.PublishedTagsAgree` | backend/src/item-explorer/item-explorer-state.service.ts:434-463 | after publishing tags every item shows exactly the published tags, and every other property is what it was |
| `ItemExplorerState.SavingPublishesTheDraft` | backend/src/item-explorer/item-explorer-state.service.ts:281-335 | after saving, viewers, editors and the ACP have what the editors were shown before, and the draft is clean |
| `ItemExplorerState.EditsLeavePublished` | backend/src/item-explorer/item-explorer-state.service.ts:239-279 | no sequence of patches and discards, refused ones included, touches the published state or the ACP |
| `ItemExplorerState.DiscardingUndoesEdits` | backend/src/item-explorer/item-explorer-state.service.ts:502-536 | discarding after any sequence of patches brings back the draft that editors were shown when it was last clean |
| `ItemExplorerStateService.ItemExplorerStateService.EnsureStateRecord` | backend/src/item-explorer/item-explorer-state.service.ts:623-673 | the first state is created once, with version 1 |
| `ItemExplorerStateService.ItemExplorerStateService.WithLockedState` | backend/src/item-explorer/item-explorer-state.service.ts:580-613 | one call on one ACP; all other ACPs keep their state; what is answered is the new row as editors see it |
| `ItemExplorerStateService.ItemExplorerStateService.FinishCheck` | backend/src/item-explorer/item-explorer-state.service.ts:160-178 | after the version query: serve and touch the cached entry if both versions agree, else drop it |
| `ItemExplorerStateService.ItemExplorerStateService.FinishLoad` | backend/src/item-explorer/item-explorer-state.service.ts:180-190 | after the load: store the entry and evict down to the bound |
| `ItemExplorerStateService.LoadedIsCached` | backend/src/item-explorer/item-explorer-state.service.ts:180-190 | what has been loaded is cached, and the youngest others stay as far as there is room |
| `ItemExplorerStateService.CheckedIsCached` | backend/src/item-explorer/item-explorer-state.service.ts:168-178 | an entry that is still current becomes the youngest one, another is dropped, the others stay |
| `ItemExplorerStateService.EnvelopesDisclose` | backend/src/item-explorer/item-explorer-state.service.ts:809-841 | who may not edit is shown the published state in all three places, who may edit the draft beside it |
| `ItemExplorerStateService.DraftsAreNotDisclosed` | backend/src/item-explorer/item-explorer-state.service.ts:809-841 | two rows that differ only in what is drafted give viewers the same answer |
| `ItemExplorerStateService.CleanStatesAreShownToAll` | backend/src/item-explorer/item-explorer-state.service.ts:211-215 | while nothing is drafted, viewers and editors are shown the same |
| `ItemExplorerStateService.DraftsAreNotServed` | backend/src/item-explorer/item-explorer-state.service.ts:112-191 | in every interleaving: until the next publication every viewer who comes is shown what is published now, whatever others patch, discard and cache meanwhile |
| `ItemExplorerStateService.AnswersTellWhatWasDone` | backend/src/item-explorer/item-explorer-state.service.ts:239-536 | the two states that a call answers, told by those shown before it: patching and discarding leave the published state and its version, discarding shows it as the draft, saving publishes the draft that was shown, publishing item properties or tags replaces those and nothing else |
| `ItemExplorerStateService.EveryViewIsGenuine` | backend/src/item-explorer/item-explorer-state.service.ts:156-191 | in every interleaving of readers and writers, cut at each `await`, a viewer is served status, versions, and the normalised draft and published state of the row that the database held at the version check of a hit, else at the load |
| `ItemExplorerStateService.HitIsCurrent` | backend/src/item-explorer/item-explorer-state.service.ts:168-175 | equal versions mean the same row, because every writer raises the version |
| `ItemExplorerStateService.ChecksTheCurrentRow` | backend/src/item-explorer/item-explorer-state.service.ts:160-167 | the row compared with is the row of that moment |
| `ItemParameterImport.ParseCsvLine` | backend/src/items/item-parameter-import.pipeline.ts:1039-1061 | the character loop equals its specification |
| `ItemParameterImport.PrintedLineIsRead` | backend/src/items/item-parameter-import.pipeline.ts:1039-1061 | a line printed with every cell quoted and quotes doubled (section 2 of RFC 4180) is read back as the row it was made of |
| `ItemParameterImport.ReadColumns` | backend/src/items/item-parameter-import.pipeline.ts:294-330 | the loops over the columns of a line: values up to the first invalid one, and its reason |
| `ItemParameterImport.GroupKeys` | backend/src/items/item-parameter-import.pipeline.ts:266-280 | there is a group exactly for the row keys of accepted lines |
| `ItemParameterImport.GroupValues` | backend/src/items/item-parameter-import.pipeline.ts:359-368 | a group holds a value of a property exactly if one of its lines carries it |
| `ItemParameterImport.GroupPlaces` | backend/src/items/item-parameter-import.pipeline.ts:369-373 | a group holds an occurrence, once, exactly if one of its lines names it |
| `ItemParameterImport.GroupLine` | backend/src/items/item-parameter-import.pipeline.ts:268-280 | the item and sub id of a group are those of one of its lines |
| `ItemParameterImport.OneForm` | backend/src/items/item-parameter-import.pipeline.ts:352-358 | in an import that goes through no item is named both with and without a sub id |
| `ItemParameterConflicts.GathersExactly` | backend/src/items/item-parameter-import.pipeline.ts:238-375 | the loop over the lines goes through exactly if no line repeats the row (where a row may have one line only), the occurrence or the empty assignment of an earlier accepted one, or names its item in the other form |
| `ItemParameterConflicts.ImportsExactly` | backend/src/items/item-parameter-import.pipeline.ts:238-390 | an import goes through exactly if, moreover, no two accepted lines give different values of a property for one row, of an item time or a competence level for one item, or of a stimulus time for one unit |
| `ItemParameterCells.NamesFindTheItem` | backend/src/items/item-parameter-import.pipeline.ts:692-718 | an item is found by its id, and by its id behind the id or label of its unit with any separator, in upper or lower case, unless the name finds an item before it |
| `ItemParameterCells.FoundHasTheName` | backend/src/items/item-parameter-import.pipeline.ts:692-718 | what is found has one of these names |
| `ItemParameterCells.MentionExactly` | backend/src/items/item-parameter-import.pipeline.ts:733-783 | exactly which cells name an occurrence, with or without a position, and which none |
| `ItemParameterCells.CellsMean` | backend/src/items/item-parameter-import.pipeline.ts:294-330 | what the cells of an accepted line mean: texts as they stand, levels as they are known, numbers, and times that are not negative |
| `ItemParameterImport.OccurrencesAreOrdered` | backend/src/items/item-parameter-import.pipeline.ts:827-842 | occurrences are totally ordered if the booklet comparison is |
| `ItemRowKey.KeysCollideExactly` | backend/src/items/item-row-key.util.ts:7-14 | two pairs of uuid and sub id have the same row key if and only if they are the same pair, or one uuid is itself a row key of the other |
| `ItemParameterPlan.KeyDetermines` | backend/src/items/item-row-key.util.ts:7-14 | so row keys determine item and sub id whenever no uuid is a row key of another |
| `ItemParameterPlan.GoodUuidsAreApart` | backend/src/items/item-row-key.util.ts:7-14 | which holds of trimmed uuids without a separator |
| `ItemParameterPlan.RecognisedExactly` | backend/src/items/item-row-key.util.ts:44-58 | a row with a sub id is recognised as a row of its item if and only if the uuid is trimmed and has no separator |
| `ItemParameterPlan.ApplyPlan` | backend/src/items/item-parameter-import.pipeline.ts:672-690 | the nested loops apply the mutations one target at a time |
| `ItemParameterPlan.AppliedCell` | backend/src/items/item-parameter-import.pipeline.ts:672-690 | a cell on which all naming mutations agree becomes what they say; a cell that none names stays |
| `ItemParameterOutcome.GroupMutationsName` | backend/src/items/item-parameter-import.pipeline.ts:452-555 | exactly which cells the mutations of one group name, and with which action |
| `ItemParameterOutcome.AllMutationsName` | backend/src/items/item-parameter-import.pipeline.ts:452-602 | exactly which cells a whole plan names |
| `ItemParameterOutcome.PlanIsCoherent` | backend/src/items/item-parameter-import.pipeline.ts:400-602 | any two mutations of a plan that name the same cell agree, over row, item and unit scope |
| `ItemParameterOutcome.CellAfter` | backend/src/items/item-parameter-import.pipeline.ts:672-690 | what every named cell holds afterwards |
| `ItemParameterOutcome.UnnamedCellsStay` | backend/src/items/item-parameter-import.pipeline.ts:672-690 | every other cell is unchanged |
| `ItemParameterOutcome.AbsentColumnsChangeNothing` | backend/src/items/item-parameter-import.pipeline.ts:400-429 | a property without a column changes nowhere |
| `ItemParameterResults.OrderOfRowsDoesNotMatter` | backend/src/items/item-parameter-import.pipeline.ts:238-690 | two lists of rows with the same members that both import leave equal item properties |
| `ItemParameterResults.OrderOfLinesDoesNotMatter` | backend/src/items/item-parameter-import.pipeline.ts:151-690 | the same from the text of the lines: two orders of the same lines that both go through leave equal item properties |
| `ItemParameterResults.RowCellsAreShown` | backend/src/files/item-list.parser.ts:312-333 | a value written into an affected row is what that row shows after the base-plus-row merge if and only if the Explorer finds the row, or the item is written as a whole and shows the same value by what it had |
| `ItemParameterResults.RowNeverListed` | backend/src/files/item-list.parser.ts:312-333 | it does not find a row with a sub id whose uuid is untrimmed or cannot be told from the sub id: the row is never listed |
| `ItemParameterResults.UntrimmedShowsOld` | backend/src/files/item-list.parser.ts:312-333 | nor what is written for an untrimmed uuid without a sub id: every row of the item shows what the entry of the raw uuid had before, else what its further names give |
| `ItemParameterResults.AcceptedCells` | backend/src/items/item-parameter-import.pipeline.ts:294-330 | an accepted line carries a value of a property if and only if the file has the column and the cell is not blank, and it is the value of the cell |
| `ItemParameterResults.ImportedCellsAreShown` | backend/src/items/item-parameter-import.pipeline.ts:238-585 | each row that a line is written to shows the value of each non-blank row-scoped cell of the line if and only if the Explorer finds the row, or the item shows the same value by what it had, which for further names outside the catalogue can be said before the import |
| `ItemParameterLines.ImportedItemValue` | backend/src/items/item-parameter-import.pipeline.ts:928-988 | after an import an item that an accepted line names stores an item time or competence level if and only if one of its lines gives it, and none of its partial rows, listed or created, keeps one |
| `ItemParameterLines.ImportedUnitValue` | backend/src/items/item-parameter-import.pipeline.ts:990-1028 | the same of the stimulus time for every item of a unit that an accepted line names |
| `ItemParameterLines.UnmentionedItemsStay` | backend/src/items/item-parameter-import.pipeline.ts:400-690 | nothing changes for an item that no accepted line names, the stimulus time excepted, which follows the unit |
| `ItemParameterLines.ImportedPlacesAreShown` | backend/src/items/item-parameter-import.pipeline.ts:529-555 | each row that a line is written to and that the Explorer finds shows exactly the positions that its lines name, those stored before of the booklets that a line names without a position, and such a booklet by itself if none was stored; a row that is not found is not listed or shows what it would show without the line |
| `ItemParameterLines.KnownPositionsExactly` | backend/src/items/item-parameter-import.pipeline.ts:785-797 | exactly which occurrences result from named and stored ones |
| `ItemParameterLines.KnownIsShown` | backend/src/items/item-parameter-import.pipeline.ts:536-538 | the stored ones are those that the row showed, by itself or by its item |
| `ItemParameterOrder.OrderNeverMattersExactly` | backend/src/items/item-parameter-import.pipeline.ts:238-690 | exactly when the order of the lines never matters, whatever the file and the properties stored before: if and only if no uuid of the catalogue is, but for white space, another one or a row key of another one, and none stands for items of two units; of rows with the same members and of texts of lines alike |
| `ItemParameterOrder.RowKeyCollides` | backend/src/items/item-parameter-import.pipeline.ts:266-280 | if one uuid is a row key of another, two lines of a certain file import in both orders with different results |
| `ItemParameterOrder.SameTrimCollides` | backend/src/items/item-parameter-import.pipeline.ts:266-280 | the same if two uuids differ in white space only |
| `ItemParameterOrder.TwoUnitsCollide` | backend/src/items/item-parameter-import.pipeline.ts:990-1028 | the same if one uuid stands for items of two units: the unit that is named last has its way |
| `ItemParameterOrder.OrderCanMatter` | backend/src/items/item-parameter-import.pipeline.ts:151-163 | a catalogue of two items, with the uuids "a" and "a::b", and the two lines |
| `ItemParameterResults.ResolveItemProperties` | backend/src/files/item-list.parser.ts:511-523 | the reversed assignment loop lets earlier candidates win |
| `ItemParameterResults.IndexPartialCreditRows` | backend/src/files/item-list.parser.ts:525-548 | the index lists, for each item, exactly its partial rows in table order |
| `ItemParameterImportPipeline.OccurrenceColumnState` | backend/src/items/item-parameter-import.pipeline.ts:616-670 | when a whole file loses its booklet occurrences |
| `ItemParameterImportPipeline.GatherLines` | backend/src/items/item-parameter-import.pipeline.ts:238-375 | the loop over the lines |
| `ItemParameterImportPipeline.ValidateGroups` | backend/src/items/item-parameter-import.pipeline.ts:844-861 | decides whether some property of some group has two values |
| `ItemParameterImportPipeline.CollectScoped` | backend/src/items/item-parameter-import.pipeline.ts:863-915 | the values of an item or unit over all its groups |
| `ItemParameterImportPipeline.BuildRowPhase` | backend/src/items/item-parameter-import.pipeline.ts:452-585 | the mutations of all groups |
| `ItemParameterImportPipeline.BuildItemPhase` | backend/src/items/item-parameter-import.pipeline.ts:928-988 | the mutations of item scope |
| `ItemParameterImportPipeline.BuildUnitPhase` | backend/src/items/item-parameter-import.pipeline.ts:990-1028 | the mutations of unit scope |
| `ItemParameterImportPipeline.BuildPlan` | backend/src/items/item-parameter-import.pipeline.ts:377-614 | the conflicts in the order in which they are raised, else the plan |
| `ItemParameterImportPipeline.Execute` | backend/src/items/item-parameter-import.pipeline.ts:151-163 | a whole import of rows |
| `ItemParameterImportPipeline.ExecuteLines` | backend/src/items/item-parameter-import.pipeline.ts:238-244 | a whole import from the text of the lines |
| `ItemRowKey.DecodeEncode` | backend/src/items/item-row-key.util.ts:13-34 | `decodeURIComponent` undoes `encodeURIComponent` for every string of Unicode characters (percent-encoding of UTF-8, section 2.1 of RFC 3986) |
| `ItemRowKey.EncodeInjective` | backend/src/items/item-row-key.util.ts:13-13 | different sub ids have different encodings |
| `ItemRowKey.EncodeAlphabet` | backend/src/items/item-row-key.util.ts:13-13 | an encoding contains only unreserved characters and escapes, so neither white space nor a colon |
| `ItemRowKey.RowKeyRoundTrip` | backend/src/items/item-row-key.util.ts:7-42 | parsing a built key gives back item and sub id, for trimmed non-empty ones whose uuid has no "::" and does not end in ":" |
| `ItemRowKey.AcceptedKeysAreCanonical` | backend/src/items/item-row-key.util.ts:16-42 | whenever a key is accepted, building from its parts gives the trimmed key back; so no two accepted keys name the same pair |
| `ItemRowKey.RowsOfItem` | backend/src/items/item-row-key.util.ts:44-58 | which keys `parseItemRowKey` accepts for an item, and with which sub id |
| `BookletParser.BookletReader.OpenBlock` | backend/src/review/booklet-parser.ts:86-102 | a block is accepted exactly if it has an id that no block before it had |
| `BookletParser.BookletReader.Navigation` | backend/src/review/booklet-parser.ts:104-156 | the loop with its stack of open markers equals the specification, error positions included |
| `BookletParser.ContentsOfWritten` | backend/src/review/booklet-parser.ts:104-156 | a forest written with each block as a Testlet or as a ProgressStart/ProgressEnd pair, in any mixture and nesting, is read with the navigation identity of the forest |
| `BookletParser.AcceptsExactlyWrittenForests` | backend/src/review/booklet-parser.ts:104-156 | a container is accepted if and only if it is such a written forest with unique block ids and balanced, non-empty flat blocks; every such reading has the same identity |
| `BookletParser.KeepsUnitOrder` | backend/src/review/booklet-parser.ts:132-142 | the units of an accepted container are its Unit elements in document order |
| `BookletParser.ContentsPaths` | backend/src/review/booklet-parser.ts:41-57 | no two units of a container have the same path |
| `BookletParser.ContentsComeFrom` | backend/src/review/booklet-parser.ts:86-156 | every block and every unit of the navigation has the id, the label, or else the id for it, and the alias of an element of the container |
| `BookletParser.AcceptedBooklets` | backend/src/review/booklet-parser.ts:67-158 | exactly when a booklet is accepted; its id is then the trimmed text of the first Id of the first Metadata, its label that of the first Label or else the id, its unit paths are distinct, its units in document order, and its navigation is that of every reading as a written forest, with labels and aliases of its elements |
| `ReviewManifest.AddKeepsInv` | backend/src/review/review-manifest.ts:80-119 | adding a booklet keeps: occurrences are exactly the pre-order unit leaves with their block labels, paths are distinct, ids of non-legacy booklets are unique |
| `ReviewManifest.ApplyKeepsInv` | backend/src/review/review-manifest.ts:157-217 | so does treating an index entry, whatever it holds |
| `ReviewManifest.OccurrenceIdsAreUnique` | backend/src/review/review-manifest.ts:102-107 | an occurrence id names one unit of one non-legacy booklet of the manifest |
| `ReviewManifest.IdentityFixesUnits` | backend/src/review/review-manifest.ts:50-56 | the navigation identity determines the units in order |
| `ReviewManifest.LinksIgnoreLabelsAndPaths` | backend/src/review/review-manifest.ts:86-111 | booklets with equal id and navigation identity have equal link ids at every position, whatever their labels, names and source paths; the digest is a parameter of what the code hashes: id, identity and position |
| `ReviewBooklets.OccurrencesAreUnits` | backend/src/review/review-manifest.ts:95-116 | an occurrence names a unit of the navigation by the name of the index, under the labels of the blocks around it, the outermost first |
| `ReviewBooklets.LinksTellApart` | backend/src/review/review-manifest.ts:86-111 | as long as digests differ, two links are equal exactly for equal ids, navigation identities and positions |
| `ReviewBooklets.DefinitionIsListed` | backend/src/review/review-manifest.ts:157-186 | an entry with a definition becomes a booklet with the id of the document, the name of the index or the label, and the units of the document in document order, unknown ones reported; it is refused with one error exactly if the document is no booklet, contradicts the index or has an id that is taken |
| `ReviewBooklets.ModuleNodesAre` | backend/src/review/review-manifest.ts:123-149 | references to modules become their blocks in order, with the units of the module sorted by their order; other references are reported |
| `ReviewBooklets.ModulesAreListed` | backend/src/review/review-manifest.ts:189-217 | an entry without a definition becomes a booklet of these blocks, legacy if it has no id, or is refused |
| `ReviewBooklets.UnassignedIsListed` | backend/src/review/review-manifest.ts:219-237 | a module to which no entry refers becomes a legacy booklet |
| `ReviewBooklets.EveryEntryIsTreated` | backend/src/review/review-manifest.ts:120-240 | every entry of every instrument of every part is treated so, and the outcome stays in the manifest |
| `ReviewManifest.ManifestBuilder.Walk` | backend/src/review/review-manifest.ts:95-116 | appends one occurrence for each unit leaf and reports unknown units |
| `ReviewManifest.ManifestBuilder.AddBooklet` | backend/src/review/review-manifest.ts:80-119 | adds a booklet or reports its id |
| `ReviewManifest.ManifestBuilder.NodesOfModules` | backend/src/review/review-manifest.ts:123-149 | the navigation of module references; unknown modules are reported and left out |
| `ReviewManifest.ManifestBuilder.AddIndexBooklet` | backend/src/review/review-manifest.ts:157-217 | the cases of an index entry |
| `ReviewManifest.ManifestBuilder.AddUnassigned` | backend/src/review/review-manifest.ts:222-237 | a module that no booklet refers to becomes a legacy booklet |
| `ReviewManifest.ManifestBuilder.Build` | backend/src/review/review-manifest.ts:120-240 | the whole manifest, with the invariant |
| `CredentialFile.DetectSeparator` | backend/src/acp/credential-file.ts:15-33 | the counting loop finds the most frequent separator of the first record that is not blank, quotes respected |
| `CredentialFile.ScanRecords` | backend/src/acp/credential-file.ts:34-81 | the character loop equals the step-by-step specification, errors included |
| `CredentialFile.RecordsCarryTheirLine` | backend/src/acp/credential-file.ts:48-81 | each record carries 1 plus the number of newlines before its first character, quoted ones included, and is what a scan from there reads |
| `CredentialFile.ReadEntries` | backend/src/acp/credential-file.ts:96-119 | the loop over the records with its map of names seen |
| `CredentialFile.NoErrorsExactly` | backend/src/acp/credential-file.ts:101-117 | there is no error exactly if every row has two columns, a name, a strong password, and no name repeats |
| `CredentialFile.AcceptedListsAreValid` | backend/src/acp/credential-file.ts:96-127 | every accepted file yields a non-empty list of distinct trimmed names with strong passwords |
| `CredentialFile.StrongIsNoHeader` | backend/src/acp/credential-file.ts:82-95 | a first row with a strong password is never taken for a header |
| `CredentialFile.PrintedListsAreReadBack` | backend/src/acp/credential-file.ts:14-128 | a valid list without carriage returns, printed fully quoted (section 2 of RFC 4180) with any header or none, any of the three separators and any line ending, is read back as it was |
| `CredentialFile.ParseCredentialFile` | backend/src/acp/credential-file.ts:14-128 | the whole reader from decoded text on |
| `ReviewPolicy.ChoicesAreConfigured` | backend/src/comments/review-policy.service.ts:242-297 | a selected group exists in the configuration, and so does a selected category unless it is the one the comment had |
| `ReviewPolicy.GroupCommentsAreForMembers` | backend/src/comments/review-policy.service.ts:146-164 | in group mode a comment of a group is seen by managers and by members of that group while it is not archived, and by nobody else |
| `ReviewPolicy.VisibilityExactly` | backend/src/comments/review-policy.service.ts:146-164 | who sees a comment, mode by mode |
| `ReviewPolicy.WhoMayComment` | backend/src/comments/review-policy.service.ts:85-106 | who may comment on which kind of target |
| `ReviewWorkspace.CreatedKeepsInv` | backend/src/comments/comments.service.ts:606-676 | a created comment refers to what is configured; a reply hangs below a root and has its group |
| `ReviewWorkspace.ConfiguredKeepsInv` | backend/src/review/review.controller.ts:181-319 | no configuration change removes a group or category that any comment refers to, deleted ones included |
| `ReviewWorkspace.PurgeKeepsInv` | backend/src/comments/comments.service.ts:854-878 | purging legacy comments leaves no reply without its parent |
| `ReviewWorkspace.ReferencesHold` | backend/src/comments/comments.service.ts:606-878 | over every interleaving of creating, replying, editing, deleting, purging, configuring and access updates, all references hold |
| `ReviewWorkspace.ReferencesAlwaysHold` | backend/src/comments/comments.service.ts:606-878 | so they hold in everything that comes of an ACP without configuration and comments |
| `ReviewWorkspace.DeletedForever` | backend/src/comments/comments.service.ts:816-852 | a deleted comment is never changed or removed again |
| `ReviewWorkspace.StaleChangesNothing` | backend/src/comments/comments.service.ts:770-797 | an edit or deletion based on another version changes nothing |
| `ReviewWorkspace.EditsAreOwn` | backend/src/comments/comments.service.ts:744-814 | an edit is made by the author of an undeleted, current comment and leaves its author, thread and group and all other comments alone |
| `ReviewChanges.CreationsAreExact` | backend/src/comments/comments.service.ts:606-676 | a comment is created exactly on a known target where the person may comment, in a thread and group that take it, with an open category and an acceptable text; it then has that author, target, thread, group, category and text, and nothing else changes |
| `ReviewChanges.EditsAreExact` | backend/src/comments/comments.service.ts:744-814 | an edit is accepted exactly of the own, visible, undeleted and current comment on a known target with an acceptable text and category; it sets these two and leaves everything else alone |
| `ReviewChanges.DeletionsAreExact` | backend/src/comments/comments.service.ts:816-852 | a deletion is accepted exactly of such a comment; it is then deleted, without text and seen by nobody, and everything else stays |
| `ReviewChanges.StaleIsConflict` | backend/src/comments/comments.service.ts:770-832 | an edit or deletion that fails for nothing but its version is told to be a conflict |
| `ReviewChanges.ConfigurationsAreExact` | backend/src/review/review.controller.ts:181-319 | exactly when a configuration is accepted, and everything it then sets: groups with their known members, categories, modes, version; comments and access settings stay |
| `ReviewChanges.GroupIsChosen` | backend/src/comments/review-policy.service.ts:275-297 | in group mode a thread starts in a group that takes comments of the person: the requested one, or the only one if the person is no manager; outside it in none |
| `ReviewChanges.CategoryIsChosen` | backend/src/comments/review-policy.service.ts:242-258 | a category is taken if it is configured and not archived, or the one the comment has |
| `ReviewWorkspace.OpensOnlyWhenConfirmed` | backend/src/review/review.controller.ts:191-201 | a step opens the comments without a group to non-managers if and only if it is a confirmed transition to SHARED that goes through |
| `ReviewWorkspace.UngroupedStayHidden` | backend/src/review/review.controller.ts:191-201 | over every run without such a step no non-manager comes to see an ungrouped comment that was hidden; refused requests and requests that are no transition are allowed |
| `ReviewThreads.ThreadShowsTheObservable` | backend/src/comments/comments.service.ts:343-378 | the thread is a function of the comments the person may see and text-free tombstones of their deleted parents |
| `ReviewThreads.ThreadShowsExactly` | backend/src/comments/comments.service.ts:343-378 | a thread shows exactly the comments that the person may see and the deleted ones which these answer, each with its text, category and author or none of them, the oldest first, and tells whether the parent is shown |
| `ReviewThreads.HiddenCommentsDoNotMatter` | backend/src/comments/comments.service.ts:343-378 | whatever else differs, equal observable parts give equal threads |
| `ReviewThreads.TombstonesAreSilent` | backend/src/comments/comments.service.ts:1822-1865 | a tombstone is the parent of a visible comment and has no text, category or author |
| `ReviewExport.ReviewExportRows` | backend/src/comments/comments.service.ts:1032-1159 | the rows of an export: the filtered comments sorted, the ids of exported comments, the lookup of missing parents, and the printed thread and parent id of each row |
| `ReviewExport.RowsAreExact` | backend/src/comments/comments.service.ts:1032-1159 | the rows are exactly those of the comments that are taken and pass the filters, in their order, each with what the comment says |
| `ReviewExport.TakenExactly` | backend/src/comments/comments.service.ts:904-960 | whose comments an export takes |
| `ReviewExport.MissingParents` | backend/src/comments/comments.service.ts:1102-1112 | the parents that are not exported themselves |
| `ReviewExport.AddNamed` | backend/src/comments/comments.service.ts:1113-1131 | the parents among them that are still stored and that this actor may be told of |
| `ReviewExport.ThreadAndExportAgree` | backend/src/comments/comments.service.ts:1032-1159 | each visible comment of a thread that passes the filters has a row in the export of visible comments, and the row names its parent, and carries its thread id, exactly if `parentVisible` of the view says so |
| `ReviewService.ReadMembers` | backend/src/review/review.controller.ts:217-242 | the loop over members: unknown ones are dropped if the group had them, else refused |
| `ReviewService.ReadGroups` | backend/src/review/review.controller.ts:205-244 | the loop over groups |
| `ReviewService.ReadCategories` | backend/src/review/review.controller.ts:265-282 | the loop over categories |
| `ReviewService.ReviewService.CreateReviewComment` | backend/src/comments/comments.service.ts:606-676 | the store after creating a comment, or its refusal |
| `ReviewService.ReviewService.UpdateOwnComment` | backend/src/comments/comments.service.ts:744-814 | the store after an edit, or its refusal |
| `ReviewService.ReviewService.DeleteOwnComment` | backend/src/comments/comments.service.ts:816-852 | the store after a deletion, or its refusal |
| `ReviewService.ReviewService.DeleteUnreferencedLegacy` | backend/src/comments/comments.service.ts:854-878 | removes exactly the legacy roots that nothing refers to |
| `ReviewService.ReviewService.Configure` | backend/src/review/review.controller.ts:181-319 | the configuration after a change, or its refusal |
| `ReviewService.ReviewService.UpdateAccess` | backend/src/acp/acp.service.ts:354-371 | leaves the settings that the review owns alone |
| `FileMutation.ResolveIncomingFiles` | backend/src/files/file-mutation.service.ts:138-164 | the loop over incoming files, by conflict strategy |
| `FileMutation.OverwriteKeepsTheLast` | backend/src/files/file-mutation.service.ts:138-164 | with "overwrite" the last file of each normalised name is kept, and nothing else |
| `FileMutation.IncomingExactly` | backend/src/files/file-mutation.service.ts:138-164 | files are refused exactly if one has no name, or two have one name and nothing may be replaced; all others are stored, in their order where nothing is overwritten |
| `FileMutation.StoredExactly` | backend/src/files/file-mutation.service.ts:106-128 | nothing is stored exactly if existing files are in the way and may not be replaced; else the new rows come behind the old ones, of which an overwrite leaves out those with an incoming name |
| `FileMutation.GroupByNormalizedName` | backend/src/files/file-mutation.service.ts:209-221 | the map from normalised names to the rows with that name in their order, rows without a name left out |
| `FileMutation.HasConflicts` | backend/src/files/file-mutation.service.ts:166-184 | looking the incoming names up in that map decides whether some row has an incoming name |
| `FileMutation.CollectOverwriteMatches` | backend/src/files/file-mutation.service.ts:194-207 | the loops over incoming files and their groups collect, once each, exactly the rows with an incoming name |
| `FileMutation.Store` | backend/src/files/file-mutation.service.ts:106-128 | the body of the transaction: check, save, remove |
| `FileMutation.OverwriteLeavesOne` | backend/src/files/file-mutation.service.ts:119-127 | after an overwrite exactly one record, that of the last incoming file, has each incoming name |
| `FileMutation.OverwriteSparesOthers` | backend/src/files/file-mutation.service.ts:119-127 | all other records are unchanged |
| `FileUploads.EveryRunIsInOrder` | backend/src/files/file-mutation.service.ts:51-136 | the invariant of any number of interleaved uploads whose staging, commit or removal steps may each fail |
| `FileUploads.RowsAlwaysHaveBlobs` | backend/src/files/file-mutation.service.ts:51-136 | in every such run every row has its blob and no two rows share one |
| `FileUploads.CleanedUpLeavesNothing` | backend/src/files/file-mutation.service.ts:91-135 | when an upload has cleaned up, of the blobs it had to remove only those are left whose removal failed |
| `FileUploads.FailedUploadsLeaveNothing` | backend/src/files/file-storage.service.ts:32-45 | so nothing is left of all that a failed upload wrote, the file whose write failed half way included, but blobs whose removal failed |
| `FileUploads.OverwriteIsExact` | backend/src/files/file-mutation.service.ts:119-127 | in every run, committing an overwrite leaves exactly one row of each incoming name, that of the last file, and every row with another name as it was |
| `FileUploads.NamesStayUnique` | backend/src/files/file-mutation.service.ts:51-136 | as long as nobody asks to keep both, no two rows ever have the same normalised name, however many uploads of one name are under way at once |
| `FileMutationServices.FileMutationService.Await` | backend/src/files/file-mutation.service.ts:51-136 | while an upload waits others take any steps; its own place in the run stays |
| `FileMutationServices.FileMutationService.StageUpload` | backend/src/files/file-storage.service.ts:25-55 | one file is written under an unused path, or what was written of it is removed and what was staged is due to be removed |
| `FileMutationServices.FileMutationService.RemovePhysicalFiles` | backend/src/files/file-storage.service.ts:65-79 | removes the blobs one by one, failures ignored |
| `FileMutationServices.FileMutationService.StageAll` | backend/src/files/file-mutation.service.ts:84-94 | stages all files, or cleans up |
| `FileMutationServices.FileMutationService.Transact` | backend/src/files/file-mutation.service.ts:96-128 | stores the rows in one step, or fails and leaves the table alone |
| `FileMutationServices.FileMutationService.UploadMultiple` | backend/src/files/file-mutation.service.ts:51-136 | under any interleaving and any failures: an upload that fails leaves the table alone, one that succeeds stores in exactly one step the rows that stand for the files its strategy keeps, and nothing remains of the blobs it had to remove but those whose removal failed; it fails only if it is refused, something that is waited for fails, or a file of the same name is in its way at some moment |
| `RegisterBooklets.FreshInstrumentId` | backend/src/review/register-booklets.ts:66-70 | the suffix loop ends after at most one turn for each taken id with the first candidate that is free |
| `RegisterBooklets.RegisterBooklets` | backend/src/review/register-booklets.ts:8-83 | all uploads in order |
| `RegisterBooklets.ConflictedExactly` | backend/src/review/register-booklets.ts:30-50 | an upload is in conflict exactly if it is neither new, nor awaited by the one entry of its id, nor matched by every entry that has its id or its file |
| `RegisterBooklets.UploadsAreRegistered` | backend/src/review/register-booklets.ts:22-82 | what becomes of the entries in each of these cases, titles included, and of two uploads with one id |
| `RegisterBooklets.RegisteringKeepsEverything` | backend/src/review/register-booklets.ts:8-83 | no entry is lost or reordered, and no non-empty id, name or file is replaced |
| `RegisterBooklets.FilesKeepOneId` | backend/src/review/register-booklets.ts:30-50 | a file that had at most one booklet id still has at most one |
| `RegisterBooklets.SettledByItsTurn` | backend/src/review/register-booklets.ts:22-82 | after its turn an upload is linked, or still in the same conflict |
| `RegisterBooklets.RegisteringIsIdempotent` | backend/src/review/register-booklets.ts:8-83 | registering the same uploads again changes nothing and gives the same warnings |

## Left out

- Digests: SHA-256 of a row key stands for the key itself, so the collision error of `findAssignedNumbers` does not occur; the revision digest is a parameter.
- Reads of the list that bypass the cache (read-only transactions, parses that must not be cached), diagnostics, cloning of cached values, the parse of the unit files, and `recalculatePublishedItemRowNumbers` beyond the renumbering itself.
- The check that an ACP exists in front of locks and uploads, and the single-file `upload`.
- Cache key strings are triples; ids and digests do not contain the separator.
- XML and UTF-8 lexing: booklets start from an element tree (without the limit of 64 levels and the refusal of DTDs), access lists and CSV files from decoded characters.
- In-place growth of the navigation tree: open markers are a stack of the blocks not yet closed instead of references into the tree.
- Strings are sequences of Unicode characters, so unpaired surrogates and cuts inside a surrogate pair are not modelled; lengths and cuts count characters, except for the password length, which counts UTF-16 units.
- The place of integer-like keys among the keys of an object.
- `statesEqual` is equality of the normalised states, not of their JSON text.
- Of a change-log entry the diff; the check that an actor id is a UUID; timestamps; the copy of the column settings into the access configuration when a state is published.
- The column policy and the projection for item lists, which are read off the same cached entries, and `runWithLockedCleanState`.
- Of the CSV import the reading of the header line (columns are given by index), success reports, messages, the confirmation flag, and the scope label of a mutation, which `applyPlan` does not read.
- The laws of the import are stated for catalogues in which no uuid is, but for white space, another one or a row key of another, and each uuid belongs to one unit. `OrderNeverMattersExactly` shows that the order of lines matters in all others whose items can each be found by some name; it takes for granted that some text is a number that is a time. Items that no name finds can only be written to by way of their unit.
- Votes, revision hashes of threads, the item catalogue and its cache, author names, legacy labels, spreadsheet output. `getFeatureConfig` returns what the source writes into the actor.
- The readiness check in front of activating a review, and other writers of the feature configuration, which do not take its lock.
- Module lists refer to modules by id only.
- RegisterBooklets.RegisteringIsIdempotent: assumes non-empty upload ids and file ids, which the booklet parser and the file store provide; entries are updated by value, so two instruments that share one entry object are not modelled.
- Of the export the labels of targets, the header texts and dates; the ids of missing parents are looked up in the state of the snapshot, so a change between the two queries is not modelled.
- The expansion of archives, and file types and checksums. A row of the table of files is identified by its path, which no two rows share. The transaction of an upload is one step, and the first look at existing names is one read.
- Controllers, guards, validation of requests, tokens, snapshots and the job service.
