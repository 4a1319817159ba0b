# Notion / Google Tasks synchroniser — verified model of the reconciliation core

The synchroniser keeps a Notion database and Google Tasks in step. Every
cycle it fetches a snapshot `{tasklists, tasks}` of each side and diffs
each one against the last synced state with `compareStates`. It merges the
two change-sets with `reconcileChanges`, where Google's changes always win.
It folds the merged change-set into the synced state with
`applyChangesToState`. It then diffs each side against the new synced
state to learn what to push to it.

Around that core sit three groups of helpers:
- converters between Google Tasks entities and Notion pages;
- the assembly of the Notion side's data and state;
- the predicates that decide when a Notion page must be archived.

The model is written in Dafny and lives in these files:

- `model.dfy` (module `Model`) holds the data:
  - entities: task lists and tasks;
  - change-sets;
  - the `SyncState` class, whose two collections are mutated in place;
  - Notion pages and their property bag.

  JavaScript compares objects by identity. So an entity is
  `Entity(ref, id, fields)`: `ref` is the identity of the object, and two
  entities are the same object exactly when their refs are equal.
- `state_helpers.dfy` (module `StateHelpers`) models `compareStates`,
  `reconcileChanges`, `applyChangesToState` and the id maps. Each is an
  imperative method proved equal to a specification function. Lemmas about
  those functions state the properties.
- `notion_helpers.dfy` (module `NotionHelpers`) covers three things:
  - the four page converters, as functions;
  - `parseNotionData` and `parseNotionState`, as methods;
  - the round trips, and how pages without an id are skipped.
- `task_helpers.dfy` (module `TaskHelpers`) models `shouldDeleteListPage`,
  `taskPageFilter` and the decision of `shouldDeleteTaskPage`.
- `app.dfy` (module `App`) models one `runCycle` once both states have been
  fetched, with lemmas about whole cycles.

`applyChangesToState` and `reconcileChanges` each hold a defect (see
"Findings"). The specification functions take a `Variant` parameter.
`AsWritten` follows the code, and the methods are proved against it.
`Intended` is the corrected reading, and the intended properties are proved
about it.

The model follows what `applyChangesToState` does:
- it appends an added entity even when an entry with its id is already
  there, rather than overwriting that entry;
- an update of an id the state already holds changes nothing, because the
  code only rebinds a local variable (`src/helpers/stateHelpers.ts:164-168`);
- so the round trip "apply(state, compare(state, target)) = target" holds
  only for the corrected reading;
- applying a change-set twice equals applying it once when it adds
  nothing and its every update carries its newValue's id
  (`ApplyIdempotentAsWritten`); an added entity whose id the change-set
  does not also delete is appended again (`ReapplyAppendsAgain`).

`compareStates` compares entities with `!==`, that is, by object identity.
Every fetch builds new objects, so a cycle sees every shared id as updated
on both sides (see "Findings"). The lemmas about quiet or one-sided cycles
therefore state what happens when a fetched snapshot holds the synced
state's own objects. A second set of definitions (`CompareByValue`,
`SyncBucketByValue`) compares fields instead. It is the corrected reading
of that finding.

`src/models/types.ts` declares no `taskListId` on `Task`. The code reads
and writes one (`src/helpers/notionHelpers.ts:121`), so the model has it.

## Model

| member | source | states |
|---|---|---|
| StateHelpers.CreateIdMap | src/helpers/stateHelpers.ts:188-202 | createTaskListMap/createTaskMap build exactly `IdMap(xs)` |
| StateHelpers.IdMapSpec | src/helpers/stateHelpers.ts:188-202 | the map's keys are exactly the ids present; for a duplicated id the last entry wins |
| StateHelpers.IdMapOfUnique | src/helpers/stateHelpers.ts:188-202 | with unique ids every entity is stored under its own id |
| StateHelpers.CompareCollections | src/helpers/stateHelpers.ts:17-41 | the loops of compareStates for one entity type compute `Compare(old, new)` |
| StateHelpers.CompareStates | src/helpers/stateHelpers.ts:3-70 | compareStates yields `Compare` for task lists and for tasks |
| StateHelpers.CompareAdded | src/helpers/stateHelpers.ts:22-26 | an entity is added exactly when it is in new and old has no entry with its id |
| StateHelpers.CompareUpdated | src/helpers/stateHelpers.ts:27-32 | when old has unique ids: every update names an entity of new under its own id that old also has; for same-id entities of new and old, an update is emitted exactly when they are different objects, whatever their fields |
| StateHelpers.CompareDeleted | src/helpers/stateHelpers.ts:37-41 | an id is deleted exactly when old has it and new does not |
| StateHelpers.CompareKeepsOrder | src/helpers/stateHelpers.ts:22-41 | added and updated follow new's order and deleted follows old's order, since splitting new (or old) splits each list accordingly |
| StateHelpers.CompareSelfIsEmpty | src/helpers/stateHelpers.ts:3-70 | comparing a state with unique ids to itself yields no change |
| StateHelpers.CompareDisjoint | src/helpers/stateHelpers.ts:3-70 | with no id in common, everything new is added, every old id is deleted, nothing is updated |
| StateHelpers.FindId | src/helpers/stateHelpers.ts:118 | `find` over an id array returns the id itself when present |
| StateHelpers.FindUpdate | src/helpers/stateHelpers.ts:119 | `find` over updates succeeds exactly when some update has the id, and returns one with that id |
| StateHelpers.FindEntity | src/helpers/stateHelpers.ts:165 | `find` over entities succeeds exactly when some entity has the id, and returns one with that id |
| StateHelpers.ReconcileBucket | src/helpers/stateHelpers.ts:88-155 | the forEach/push loops of reconcileChanges for one entity type compute `Reconcile(notion, google, AsWritten)` |
| StateHelpers.KeepNotionUpdates | src/helpers/stateHelpers.ts:115-122 | the loop over Notion's updates pushes exactly `SurvivingUpdates(notion.updated, google, AsWritten)` |
| StateHelpers.KeepNotionDeletes | src/helpers/stateHelpers.ts:124-129 | the loop over Notion's deletions pushes exactly `SurvivingDeletes(notion.deleted, google, AsWritten)` |
| StateHelpers.KeepNotionAdds | src/helpers/stateHelpers.ts:131-135 | the loop over Notion's additions pushes exactly `SurvivingAdds(notion.added, google)` |
| StateHelpers.ReconcileChanges | src/helpers/stateHelpers.ts:72-158 | reconcileChanges yields `Reconcile` for tasks and for task lists |
| StateHelpers.SurvivingUpdatesSpec | src/helpers/stateHelpers.ts:115-122 | a Notion update survives exactly when Google has no conflicting update or deletion of its id |
| StateHelpers.SurvivingDeletesSpec | src/helpers/stateHelpers.ts:124-129 | a Notion deletion survives exactly when Google has no conflicting update or deletion of its id |
| StateHelpers.SurvivingAddsSpec | src/helpers/stateHelpers.ts:131-135 | a Notion addition survives exactly when Google added no entity with its id |
| StateHelpers.ReconcileMembers | src/helpers/stateHelpers.ts:88-155 | Google's three lists come first and unchanged; each merged list holds exactly Google's entries plus the surviving Notion entries |
| StateHelpers.NotionSurvivorsKeepOrder | src/helpers/stateHelpers.ts:115-155 | surviving Notion entries keep their original order |
| StateHelpers.ReconcileWithEmptyGoogle | src/helpers/stateHelpers.ts:72-158 | with no Google changes the result equals the Notion change-set |
| StateHelpers.DeletionIgnoresGoogleAdds | src/helpers/stateHelpers.ts:124-129 | a Notion deletion is never checked against Google's additions: an id Google re-adds and Notion deletes ends up both added and deleted |
| StateHelpers.GoogleUpdateBeatsNotionDelete | src/helpers/stateHelpers.ts:124-129 | Google's update of an id and Notion's deletion of it merge into the update alone |
| StateHelpers.BothAddedKeepsGoogles | src/helpers/stateHelpers.ts:131-135 | an id added on both sides is added once, as Google's entity |
| StateHelpers.BothUpdatedKeepsGoogles | src/helpers/stateHelpers.ts:115-122 | an id updated on both sides is updated once, to Google's entity, in both readings |
| StateHelpers.EmptyIdEscapesGoogleDeletion | src/helpers/stateHelpers.ts:115-129 | as written, a Notion update and deletion of id "" survive Google's deletion of ""; as intended they are dropped |
| StateHelpers.ReconcileVariantsAgree | src/helpers/stateHelpers.ts:115-150 | the written and intended merges agree whenever Google deleted no id "" |
| StateHelpers.ReconcileIntendedDropsConflicts | src/helpers/stateHelpers.ts:115-155 | as intended, a Notion update or deletion is dropped exactly when Google updated or deleted its id, and a Notion addition exactly when Google added its id |
| StateHelpers.ApplyToCollection | src/helpers/stateHelpers.ts:161-172 | the three loops for one collection compute `ApplyBucket(xs, c, AsWritten)`: added, then updated, then deleted |
| StateHelpers.ApplyChangesToState | src/helpers/stateHelpers.ts:160-186 | the state's task lists, then its tasks, become `ApplyBucket` of their old value; nothing else changes |
| StateHelpers.DeleteRemovesEveryEntry | src/helpers/stateHelpers.ts:170-172 | a deletion removes every entry with that id and keeps the others in order; an absent id changes nothing |
| StateHelpers.RemoveIdsMember | src/helpers/stateHelpers.ts:183-185 | after all deletions an entity remains exactly when it was there and its id is not deleted |
| StateHelpers.UpdatesOnlyAppend | src/helpers/stateHelpers.ts:164-168 | as written, updates keep the existing entries and only append the newValues of updates whose id was missing; every well-formed update's id (one that carries its newValue's id) is present afterwards; updates of present ids change nothing |
| StateHelpers.ApplyAsWritten | src/helpers/stateHelpers.ts:160-186 | after apply, no deleted id remains; every old or added entity with another id remains; anything else is some update's newValue |
| StateHelpers.ApplyIdempotentAsWritten | src/helpers/stateHelpers.ts:160-186 | for a change-set that adds nothing and whose every update carries its newValue's id, applying it twice equals applying it once |
| StateHelpers.ReapplyAppendsAgain | src/helpers/stateHelpers.ts:160-186 | a change-set that adds an entity whose id it does not delete gives a longer state, and so a different one, when applied twice than when applied once; a change-set that only adds `x` appends `x` once more |
| StateHelpers.RoundTripFailsAsWritten | src/helpers/stateHelpers.ts:164-168 | as written, applying `Compare([a], [b])` to `[a]` for an edited `b` yields `[a]`; as intended it yields `[b]` |
| StateHelpers.ReplaceFirstSpec | src/helpers/stateHelpers.ts:165-166 | for a new value carrying the id, the corrected update keeps every position's id, and, when the ids are unique and the id is present, swaps exactly the entry with the id for the new value |
| StateHelpers.IntendedUpdates | src/helpers/stateHelpers.ts:164-168 | as intended, with unique ids, an entity is present after the updates exactly when it was present and not updated, or is some update's newValue |
| StateHelpers.CompareWellFormed | src/helpers/stateHelpers.ts:17-41 | for states with unique ids, the diff adds only fresh ids, keeps ids unique, and updates each old id at most once under its own id |
| StateHelpers.ApplyCompareRoundTrip | src/helpers/stateHelpers.ts:160-186 | as intended, applying to a state its diff to a target yields exactly the target's entities, each id once |
| StateHelpers.FreshCopyAllUpdated | src/helpers/stateHelpers.ts:27-32 | a snapshot whose entities are new objects with the same ids and fields as old (unique ids) diffs as every entity updated, in order, and nothing added or deleted |
| StateHelpers.FreshCopyUnchangedByValue | src/helpers/stateHelpers.ts:27-32 | comparing fields instead, the same fresh copy diffs as no change |
| StateHelpers.CompareByValueEdit | src/helpers/stateHelpers.ts:27-32 | comparing fields, an entity whose fields changed is reported as updated |
| NotionHelpers.DateOf | src/helpers/notionHelpers.ts:51-59 | a date is null exactly when the task field is absent or empty, and otherwise carries that value |
| NotionHelpers.ParseListToNotionPage | src/helpers/notionHelpers.ts:4-33 | the page has the list properties with Name = title, GTaskID = id, List URL = selfLink ?? "" |
| NotionHelpers.ParseTaskToNotionPage | src/helpers/notionHelpers.ts:35-86 | Done is true exactly when status is "completed"; Due and Completed are null exactly when the field is falsy; Project relation is exactly the given page id; GTaskID holds the id |
| NotionHelpers.ParseNotionPageToList | src/helpers/notionHelpers.ts:88-98 | the list's id, title and selfLink are read from GTaskID, Name and List URL |
| NotionHelpers.FindProject | src/helpers/notionHelpers.ts:110 | `find` over the projects returns the first entry with the page id, and fails exactly when none has it |
| NotionHelpers.ParseNotionPageToTask | src/helpers/notionHelpers.ts:100-126 | fails, and only then, when no registered project has the relation's page id; otherwise the status is "completed" exactly when Done is checked, else "needsAction"; taskListId is the first matching project's list id |
| NotionHelpers.ListRoundTrip | src/helpers/notionHelpers.ts:4-98 | page and back gives the list with selfLink ?? "" |
| NotionHelpers.TaskRoundTrip | src/helpers/notionHelpers.ts:35-126 | when the project page ids are distinct and the page's project is registered, page and back keeps id, title and truthy due/completed, defaults selfLink to "", normalises status, and takes taskListId from the project |
| NotionHelpers.TaskRoundTripExact | src/helpers/notionHelpers.ts:35-126 | when the project page ids are distinct and the page's project, whose list is the task's `taskListId`, is registered, a task with a proper status, truthy due and completed dates, a selfLink, and no parent or deleted flag comes back as a new object (the given ref) with the same id and every field |
| NotionHelpers.ParseNotionData | src/helpers/notionHelpers.ts:128-156 | all list pages are parsed before any task page; the result is the parsed data, or the error of the first failing task page |
| NotionHelpers.ParsedProjectsConcat | src/helpers/notionHelpers.ts:134-142 | list pages are parsed in input order |
| NotionHelpers.ParsedProjectsSkipAndOrder | src/helpers/notionHelpers.ts:134-142 | pages without an id are skipped; when all have one, the projects are aligned with the pages |
| NotionHelpers.ParsedTasksOk | src/helpers/notionHelpers.ts:144-154 | parsing fails exactly when some task page with an id points to an unregistered project |
| NotionHelpers.ParseListPages | src/helpers/notionHelpers.ts:134-142 | the first loop yields exactly the projects parsed from the list pages |
| NotionHelpers.ParseTaskPages | src/helpers/notionHelpers.ts:144-154 | the second loop yields exactly the tasks parsed from the task pages, or the error of the first failing page |
| NotionHelpers.ParsedTasksConcat | src/helpers/notionHelpers.ts:144-154 | task pages are parsed in input order: parsing a + b gives a's tasks followed by b's (b's objects allocated after a's), and the first error wins |
| NotionHelpers.ParsedTasksOnePage | src/helpers/notionHelpers.ts:144-154 | one page without an id yields no task; one with an id yields exactly its own task data, or the error of its missing project |
| NotionHelpers.ParsedTasksFromPages | src/helpers/notionHelpers.ts:144-154 | when parsing succeeds, there are no more tasks than pages, and each task is what one page with an id parses to on its own (its page id, parsed task and project page id) |
| NotionHelpers.ParsedTasksAligned | src/helpers/notionHelpers.ts:144-154 | when every task page has an id and parsing succeeds, the i-th task is what the i-th page parses to, one task per page |
| NotionHelpers.ParseNotionState | src/helpers/notionHelpers.ts:158-167 | a fresh state whose tasks and task lists are the data's, in order and of the same length |
| TaskHelpers.CountWithId | src/helpers/taskHelpers.ts:61-64 | the filtered length is zero exactly when no entry has the id |
| TaskHelpers.ShouldDeleteListPage | src/helpers/taskHelpers.ts:54-71 | true exactly when no list has the id named by the page's GTaskID |
| TaskHelpers.ShouldDeleteListPageDependsOnIds | src/helpers/taskHelpers.ts:55-66 | the decision depends only on that id and the set of list ids, not on Name |
| TaskHelpers.TaskPageFilter | src/helpers/taskHelpers.ts:73-76 | the output is no longer than the input and holds only input pages |
| TaskHelpers.TaskPageFilterConcat | src/helpers/taskHelpers.ts:73-76 | filtering is index-aligned and order-preserving: it distributes over concatenation |
| TaskHelpers.TaskPageFilterKeeps | src/helpers/taskHelpers.ts:75 | the page at index i is kept, in place, exactly when results[i] is true |
| TaskHelpers.TaskPageFilterExtremes | src/helpers/taskHelpers.ts:74-75 | all-true results return the input, all-false results return nothing |
| TaskHelpers.ShouldDeleteTaskPage | src/helpers/taskHelpers.ts:8-52 | false exactly when the project page, its list and the list's tasks were fetched and one task has the page's id; true on every other branch |
| TaskHelpers.EmptyTaskListDeletes | src/helpers/taskHelpers.ts:31-39 | an empty fetched task array leads to archiving |
| TaskHelpers.TaskStillPresentKeepsPage | src/helpers/taskHelpers.ts:32-39 | a page whose task is fetched is kept; appending a task keeps the page exactly when it was kept or the task has the page's id |
| App.RunCycle | src/core/app.ts:238-251 | the synced state becomes apply(reconcile(diff to Notion, diff to Google)); the push change-sets are the diffs from each source to the new synced state |
| App.QuiescentCycle | src/core/app.ts:238-251 | when both fetched snapshots are the synced state's own objects (unique ids), the synced state stays and nothing is pushed |
| App.GoogleEditRevertedAsWritten | src/core/app.ts:238-251 | as written, an edit made in Google is lost and the old entity is pushed back to Google; as intended the edit is kept and pushed to Notion |
| App.OneSidedEditsPropagateIntended | src/core/app.ts:238-251 | as intended, when the other side's snapshot is the synced state's own objects, the synced state ends up with exactly the changed side's entities, each id once |
| App.FreshObjectsDropNotionEdit | src/core/app.ts:238-251 | with fresh objects `n` (Notion) and `g` (Google) for a synced `a`: as written the synced state keeps `a` and `a` is pushed to both sides as an update; as intended it becomes `g`, which is pushed to Notion, so Notion's version is lost |
| App.FreshCopiesKeepSyncedState | src/core/app.ts:238-251 | comparing fields, fresh copies of the synced state on both sides keep it and push nothing |
| App.NotionEditKeptByValue | src/core/app.ts:238-251 | comparing fields, with the corrected apply, an edit made in Notion while Google holds an unedited copy becomes the synced state, is pushed to Google, and nothing is pushed to Notion |

## Left out

- StateHelpers.CompareByValue: it compares every field, including a task's
  `parent` and `deleted`, which a task parsed from a Notion page never
  carries; a copy that came from the other source can therefore still be
  reported as updated. Restricting the comparison to the fields both
  sources carry (title, status, due, completed, taskListId) is not modelled.
- Fetching the two states, the push methods of `src/core/app.ts`, the Notion
  and Google API clients, authentication and logging are I/O and are not
  part of this model.
- TaskHelpers.ShouldDeleteTaskPage: the three awaited fetches are function
  parameters. A fetch that fails by throwing is not modelled.
- TaskHelpers.TaskPageFilter: the predicate's results are given as a
  sequence. `Promise.all` running the predicates concurrently is not
  modelled.
- The runtime `as` casts on Notion property bags are not modelled. Reading
  `title[0]`, `rich_text[0]` and `relation[0]`, and the properties each
  parser reads, are preconditions instead (`IsListPage`, `IsTaskPage`). The
  TypeError a malformed page would raise is therefore outside the model.
- NotionHelpers.ParseNotionPageToTask: the value thrown when no project
  matches is the one error, `UnknownProject`. The logging it performs is
  not modelled.
- Each object a parser allocates is given as an explicit `ref`:
  `base + i` for the i-th page. No heap allocation is modelled.
- Notion properties are modelled without their `type` tags. Only the first
  rich-text item is read, as in the code.
- `Task.deleted`: `src/models/types.ts` declares it as a boolean. It is
  modelled as optional, because parsed tasks do not set it.
- StateHelpers.ApplyCompareRoundTrip: states that the result has the same
  entities as the target, each id once. It does not state that they come
  in the target's order. It also requires unique ids in both states, and
  that an object present in both has the same value in both.
- App.RunCycle: it does not model the `googleTasks.create()` call or the
  `try` around the cycle.

## Findings

| source | as written | input that shows it | evidently intended | confidence | as-written member | corrected member |
|---|---|---|---|---|---|---|
| src/helpers/stateHelpers.ts:164-168 | `if (foundList) foundList = update.newValue` rebinds a local variable, so an update of an id the state holds leaves the state unchanged (likewise for tasks at lines 177-181) | state `[a]`, target `[b]` with `b.id == a.id`, different objects: applying `compareStates([a],[b])` to `[a]` leaves `[a]`; in a cycle, an edit made in Google is pushed back as the old entity | replace the entry with that id by `newValue` | high, not executed | StateHelpers.RoundTripFailsAsWritten | StateHelpers.ApplyCompareRoundTrip |
| src/helpers/stateHelpers.ts:27-32 | `oldTaskList !== newTaskList` compares object identity (likewise for tasks at lines 55-60), and every fetch builds new objects, so every id the synced state shares with a snapshot is reported as updated on both sides, and Google's update wins | synced `[a]`, Notion snapshot `[n]`, Google snapshot `[g]`, one id, three distinct objects, `n` edited in Notion: as written `a` stays and is pushed back to both sides; with the corrected apply `g` replaces it and is pushed to Notion, so the Notion edit never survives a cycle | compare the fields both sources carry (for tasks: title, status, due, completed, taskListId); `CompareByValue` compares every field, see "## Left out" | high, not executed | App.FreshObjectsDropNotionEdit | App.NotionEditKeptByValue |
| src/helpers/stateHelpers.ts:115-129 | `!deleted.find(id => id === x)` tests the truthiness of the id it finds, and "" is falsy (likewise for task lists at lines 139 and 146) | Google deletes id "" and Notion updates and deletes "": the merged change-set updates "" and deletes it twice | test membership (`includes`/`some`) | medium (an empty id is unusual), not executed | StateHelpers.EmptyIdEscapesGoogleDeletion | StateHelpers.ReconcileIntendedDropsConflicts |
