# Collaborative map editor: the object store and its synchronisation

This project models the data core of a small collaborative map editor. The
editor keeps a graph of JSON objects. Each object has a `type` field, and
every field whose name starts with `$` holds the id of another object, so a
field named `$T$…` must point at an object of type `T`.

The model covers four parts of the code:

- **The graph store** (`database.js`). It holds the objects together with a
  type index and a back-reference index. Its only mutator is `modify`, which
  applies a batch of `{id, oldData, data}` updates all or nothing. Staged
  back-references live in a `DiffMapSet`, an XOR overlay on a map of sets.
  `getUndoUpdates` computes the inverse of a batch.
- **The client wrapper** (`clientDatabase.js`). It applies local edits at
  once and collects them, with their undo steps, in `ChangesCollector`s.
  It keeps the transaction scope, the bounded undo and redo stacks, and a
  protocol with at most one batch in flight. When a response arrives, it
  applies the server's objects over the undone local state and then replays
  what survives of the local changes.
- **The in-browser back end** (`backend.js`). It gives the client's
  negative (provisional) ids fresh positive server ids. It also merges
  queued answers into the next one.
- **The node server** (`node-server.js`). It numbers a batch the same way.
  It resolves `oldData: true` placeholders to the real prior value, applies
  the batch and appends it to a log. The log is a sequence of records, each
  an 8-byte little-endian length header followed by the metadata and the
  payload. The server also answers catch-up requests from a 60-second
  window of recent batches.

Every operation is a pure function. An operation that throws in JavaScript
returns `Outcome.Threw(state, error)`. The state is what the source leaves
behind: a JavaScript object mutated before the throw stays mutated (the
one exception is listed under "Left out"). Only
the graph store's `modify` returns a plain `Result`, because nothing it
touches changes before its checks pass.

Field values are opaque values with equality (`Values.Value`), and ids are
values too. A missing field reads as null.

Listener calls are recorded as data: `GraphStore.Note` for the store and
`SyncClient.Event` for the client. The client keeps both traces: the
wrapper's own listener calls, and the calls its local Database makes to the
listeners registered through `addChangeListener`.

Timers are explicit events: `SyncClient.Flush` is the `submit` timeout and
`LocalBackend.Deliver` is the back end's callback timeout. The client tells
apart a set `submitTimeout` (`flushScheduled`) and a timer whose callback
has not run yet (`timerQueued`). When `submit2` throws, `submitTimeout` is
never cleared, so no later `submit` schedules another flush.

The clock, the random update id and the bytes of the log file are
parameters.

Files:

- `wrappers.dfy`: Option, Result and Outcome.
- `values.dfy`: values, object data, updates and errors.
- `diffmapset.dfy`: the `DiffMapSet` overlay.
- `graphstore.dfy`: the store, `modify`, `getUndoUpdates` and the getters.
- `storelaws.dfy`: the laws of `modify`.
- `collector.dfy`: `ChangesCollector` and its coalescing laws.
- `client.dfy`: the client wrapper.
- `clientlaws.dfy`: the laws of the client wrapper.
- `idmapping.dfy`: id assignment and reference mapping, shared by both back ends.
- `backend.dfy`: the in-browser back end.
- `server.dfy`: the node server.
- `serverlaws.dfy`: the laws of the node server.
- `logformat.dfy`: the byte layout of the log.

## Model

| member | source | states |
|---|---|---|
| Values.RefTargets | database.js:196-211 | The referenced ids of an object are exactly the non-null values of its `$` fields. |
| Values.SameFieldsIsFieldEquality | database.js:187-190 | The two field-by-field loops accept exactly when both objects agree on every field, a missing field counting as null. |
| Values.DistinctIds | clientDatabase.js:173-176 | The ids of a batch in first-occurrence order: each id appears once, and every id of the batch appears. |
| DiffMapSets.Over | database.js:5-8 | A fresh overlay has exactly the memberships of the committed map. |
| DiffMapSets.SetsEqualIsEquality | database.js:26-30 | `setsEqual` holds exactly when the two sets are equal. |
| DiffMapSets.GetAll | database.js:13-21 | The effective set of a key is the symmetric difference of the committed and staged sets (empty when both are absent), and holds exactly the values `has` reports. |
| DiffMapSets.HasAny | database.js:22-25 | `hasAny(k)` holds exactly when some value is in the effective set of `k`. |
| DiffMapSets.Toggle | database.js:31-43 | After a toggle, the pair's membership is the requested state (the flipped one when none is given), and no other pair's membership changes. The committed map is untouched, and a staged set is created only when a flip happens. |
| DiffMapSets.Set | database.js:44-46 | `set(k, v)` makes the pair a member and leaves every other membership as it was. |
| DiffMapSets.Delete | database.js:47-49 | `delete(k, v)` makes the pair a non-member and leaves every other membership as it was. |
| DiffMapSets.SetAll | database.js:196-211 | Setting or deleting one value under many keys gives each of those keys the requested membership and changes nothing else. |
| DiffMapSets.SetAllOfOneKey | database.js:44-49 | For a single key, the bulk operation is `toggle` with a given state. |
| DiffMapSets.ToggleTwiceRestores | database.js:31-43 | Toggling the same pair twice restores every membership and every effective set. |
| DiffMapSets.MergeAll | database.js:50-56 | After `mergeAll`, each key's committed set is its former effective set. A staged key stays only when that set is non-empty, unstaged keys are kept, and the overlay is empty. |
| DiffMapSets.MergeAllKeepsMembership | database.js:50-56 | Merging changes no membership. |
| DiffMapSets.MergeAllRequireExistingKeys | database.js:57-68 | The strict merge throws exactly when a staged key missing from the committed map has a non-empty effective set. On success it keeps exactly the committed keys, each with its effective set, and clears the overlay. |
| DiffMapSets.MergeRequireExistingKeepsMembership | database.js:57-68 | A successful strict merge changes no membership. |
| GraphStore.Effective | database.js:181 | The folded view of a batch: an id reads from the batch's staged value when it has one, and from the committed objects otherwise. |
| GraphStore.Step | database.js:177-213 | One update passes only if all of these hold: it inserts exactly when nothing is there; an expected object agrees field by field with the folded value; and new data keeps the type of both the folded and the committed object. |
| GraphStore.NotesFor | database.js:282-298 | The listener calls: one change call per affected id in batch order, with the before and after values, then one transaction call with the set of affected ids. |
| GraphStore.Modify | database.js:170-300 | A locked store throws. A successful batch leaves the store unlocked and reports every affected id with its before and after values. |
| GraphStore.UndoOf | database.js:158 | One undo entry per changed id, in the order of first change. |
| GraphStore.GetUndoUpdates | database.js:141-164 | One undo block per group. |
| GraphStore.GetReferrers | database.js:306-308 | On a consistent store, `getReferrers(x)` is present exactly when `x` exists, and holds exactly the ids whose `$` fields name `x`. |
| GraphStore.GetIdsOfType | database.js:314-316 | On a consistent store, `getIdsOfType(t)` holds exactly the live ids of type `t`, and is empty for an unknown type. |
| StoreLaws.StepTracks | database.js:177-213 | Each staged update keeps the staged referrers diff equal to the back-references of the folded view. |
| StoreLaws.FoldTracks | database.js:177-213 | Staging a whole batch keeps the staged referrers diff equal to the back-references of the folded view. |
| StoreLaws.CheckedReference | database.js:215-243 | Once the dead-reference and target-type checks pass, every non-null `$` field of the folded view names a live object of the right type. |
| StoreLaws.ChecksGiveIntegrity | database.js:215-243 | Passing the checks implies referential integrity of the folded view. |
| StoreLaws.IntegrityPassesChecks | database.js:215-243 | Conversely, a folded view with referential integrity passes all three checks. |
| StoreLaws.MergeSucceeds | database.js:247-256 | With integrity, the strict referrers merge never throws. |
| StoreLaws.CommitReferrersExact | database.js:247-279 | After a commit, the objects are the folded view, and `referrers[x]` exists for exactly the live ids and is exactly the set of ids referring to `x`. |
| StoreLaws.CommitTypesExact | database.js:258-276 | After a commit, each type's index set is exactly the live ids of that type, and every live object's type is indexed. |
| StoreLaws.CommitValid | database.js:245-279 | A commit of a view with integrity succeeds and leaves a consistent store: integrity plus exact type and referrer indexes. |
| StoreLaws.ModifySucceedsIff | database.js:170-300 | On a consistent store, `modify` succeeds exactly when every update passes its checks and the folded view has referential integrity. A success leaves a consistent store holding the folded view; a failure changes nothing. |
| StoreLaws.ModifyIsSequential | database.js:170-279 | A successful batch has the same effect as applying its updates one after another as whole-object replacements. |
| StoreLaws.ModifyKeepsTypes | database.js:194 | No object that survives a batch changes its type. |
| StoreLaws.UndoRestores | database.js:141-164 | Applying a batch and then its undo block succeeds and restores the prior objects. |
| StoreLaws.UndoEntries | database.js:141-164 | An undo block names each id once. Each entry expects the new value and restores the prior one, and every id whose value changed has an entry. |
| StoreLaws.UndoInAnyOrderRestores | database.js:141-164 | The undo entries restore the prior objects in any order. |
| StoreLaws.UndoGroupsSequential | database.js:141-164 | The undo block of each group is computed against the state the earlier groups leave. |
| StoreLaws.ReplayRestores | database.js:170-279 | A batch of distinct-id entries that each expect the current value and write a target value turns the store into the target, when the target has integrity and every differing id is covered. |
| Collectors.Find | clientDatabase.js:10 | A lookup in the collector finds the entry for an id exactly when one exists. |
| Collectors.AddChange | clientDatabase.js:9-21 | A change is coalesced into the per-id entries, keeping one entry per id, or the call throws for an id already present. |
| Collectors.PrependUndo | clientDatabase.js:22-35 | An undo step is prepended to the per-id entries, keeping one entry per id, or the call throws for an id already present. |
| Collectors.Add | clientDatabase.js:8-36 | `add` keeps the collector keyed by id, also in the state a throw leaves behind, and the only error it throws is the collector error. |
| Collectors.AddFrom | clientDatabase.js:37-39 | `addFromCollector` keeps the collector keyed by id, also in the state a throw leaves behind, and throws only the collector error. |
| Collectors.ReplaceUndo | clientDatabase.js:46-50 | `replace(null, undo)` keeps the changes, also when it throws, and leaves a keyed undo half. |
| Collectors.AddChangesStops | clientDatabase.js:9-21 | A throw of the changes loop comes from the first change whose checks fail, and leaves exactly the entries the changes before it made. |
| Collectors.PrependAllStops | clientDatabase.js:22-35 | A throw of the undo loop comes from the first step, counting from the end, whose checks fail, and leaves exactly the entries the later steps made. |
| Collectors.AddThrowKeepsProgress | clientDatabase.js:8-36 | A throw of `add` leaves a prefix of the changes folded in with the undo half untouched, or all the changes with a suffix of the undo steps prepended. |
| Collectors.AddFromKeepsEarlierWrites | clientDatabase.js:8-36 | Folding a group into a collector that holds a newer version of the same object overwrites that object's data and then throws in the undo loop, keeping the overwrite. |
| Collectors.PrependFreshSucceeds | clientDatabase.js:22-35 | Prepending undo steps about ids not yet collected never throws and adds exactly those steps. |
| Collectors.ReplaceUndoSucceeds | clientDatabase.js:220-221 | Rebuilding an undo half from an undo block of `getUndoUpdates` never throws. |
| Collectors.AddChangeCoalesces | clientDatabase.js:9-21 | Against the history it coalesces, a change throws exactly when its id was seen and its expectation (existence, then field by field) disagrees with the last recorded data. Otherwise the result coalesces the extended history: per id, the first `oldData` and the last `data`. |
| Collectors.PrependUndoCoalesces | clientDatabase.js:22-35 | An undo step throws exactly when its data disagrees with the oldest recorded expectation of its id. Otherwise the result coalesces the history with the step in front. |
| Collectors.AddChangesCoalesces | clientDatabase.js:9-21 | The change loop coalesces everything collected so far followed by the new changes. |
| Collectors.PrependAllCoalesces | clientDatabase.js:22-35 | The reversed undo loop coalesces the new steps in front of the collected ones. |
| Collectors.KeyedCoalescesItself | clientDatabase.js:8-36 | A keyed list coalesces itself. |
| Collectors.CoalescedReplaysHistory | clientDatabase.js:8-21 | Replaying the coalesced entries has the same effect on the objects as replaying the whole history. |
| SyncClient.SnapshotOf | clientDatabase.js:173-176 | `oldState` holds exactly the batch's ids, each with its value before the batch. |
| SyncClient.ListenerCalls | clientDatabase.js:179-182 | One listener call per batch id in first-occurrence order, with before and after values, then the general listeners. |
| SyncClient.Submit | clientDatabase.js:253-257 | A flush is scheduled when one already was, or when `current` or `pending` is non-empty. A timer is queued only when none was scheduled before. Nothing else changes. |
| SyncClient.WithTarget | clientDatabase.js:183 | Edits go to the open transaction when there is one, and to `current` otherwise. |
| SyncClient.Modify | clientDatabase.js:172-185 | A store failure changes nothing. On success the store is the store's `modify` result and its listener calls are kept. The open transaction, or else `current`, becomes what `add` of the batch and its undo block leaves, whether or not that throws. The call succeeds exactly when `add` does. |
| SyncClient.Insert | clientDatabase.js:121-126 | Null data throws. Otherwise the id is the next negative one, and the insert is a `modify` with no expected prior value. |
| SyncClient.OrTrue | clientDatabase.js:130 | A falsy `oldData` becomes the `true` placeholder, and any other expectation is kept. |
| SyncClient.UpdateObject | clientDatabase.js:128-131 | Null data throws. Otherwise it is a `modify` expecting an existing object. |
| SyncClient.DeleteObject | clientDatabase.js:133-135 | A `modify` to null expecting an existing object. |
| SyncClient.SetUncommitted | clientDatabase.js:140-144 | It throws exactly when a transaction is already open. Otherwise it opens an empty one and changes nothing else. |
| SyncClient.Rollback | clientDatabase.js:151-156 | Without a transaction it throws. Otherwise the store is the result of applying the transaction's undo, and the transaction is closed. |
| SyncClient.Commit | clientDatabase.js:158-164 | Without a transaction it throws. Otherwise `pending` becomes what folding in the transaction leaves, whether or not the fold throws. The call succeeds exactly when the fold does, and only then is the transaction closed. The store is untouched. |
| SyncClient.Push | clientDatabase.js:263-274 | The entry lands on top. The oldest entry is dropped once the stack holds 100, so a stack never grows past 100. |
| SyncClient.MakeUndoEntry | clientDatabase.js:259-282 | An empty `current` changes nothing. Otherwise the group's undo goes on the undo stack and clears the redo stack (or, for redo, its changes go on the redo stack). `pending` becomes what folding in the group leaves, also on a throw. The group is reset only when the fold succeeds. |
| SyncClient.Flush | clientDatabase.js:284-296 | The queued timer is used up. A batch is sent only when none is in flight; it then becomes the in-flight batch and the only new sent batch, and `pending` is emptied. When closing the group throws, nothing is sent and `submitTimeout` stays set. |
| SyncClient.ApplyLoop | clientDatabase.js:203-250 | The retry loop takes at most one more attempt than there are discardable buffers. The undo rebuilds inside the `try` are proved never to throw. Success clears the in-flight batch, and the request protocol is unchanged. |
| SyncClient.Rebase | clientDatabase.js:219-221 | After a successful attempt, the undo lists of the open transaction and of `pending` are rebuilt from the attempt's undo blocks, and this cannot throw. Besides the new database and the cleared in-flight batch, nothing else changes. |
| SyncClient.TryApplyUpdates | clientDatabase.js:195-251 | `tryApplyUpdates` ends within three attempts, and success clears the in-flight batch. |
| SyncClient.RemapFields | clientDatabase.js:310-319 | Only `$` fields holding a negative id the map knows are rewritten. |
| SyncClient.RemapStack | clientDatabase.js:332-338 | Every undo entry is remapped in place: its id and both field bags. The stack's shape is kept. |
| SyncClient.ResponseCalls | clientDatabase.js:345-352 | The response's listener calls skip mapping targets and report each id under its new id, with its value before and after. |
| SyncClient.HandleResponse | clientDatabase.js:298-359 | A handled response clears the request and the in-flight batch, and no client id of the map survives in the store. At most one undo entry is added, and a set `submitTimeout` stays set. |
| SyncClient.Settle | clientDatabase.js:332-358 | A response is accepted exactly when no client id of the map is still in the database and no server id of the map held an object before the server's updates. A rejection throws with only the undo stack remapped. An acceptance clears the request and the in-flight batch, and a set `submitTimeout` stays set. |
| SyncClient.UndoAsWritten | clientDatabase.js:361-367 | `undo` as written: an empty stack is a no-op, and an open transaction or a non-empty `current` throws. It never sends or issues ids. |
| SyncClient.MakeRedoEntry | clientDatabase.js:259-282 | The corrected redo entry: the group's undo steps go on the redo stack. `pending` becomes what folding in the group leaves, also on a throw, and the group is reset only when the fold succeeds. |
| SyncClient.Undo | clientDatabase.js:361-367 | The corrected `undo` has the same error cases as the one as written, and never sends or issues ids. |
| SyncClient.Redo | clientDatabase.js:369-375 | `redo`: an empty stack is a no-op, and an open transaction or a non-empty `current` throws. |
| ClientLaws.ApplyLoopCommits | clientDatabase.js:218-223 | A successful retry loop leaves the store `modify` makes of the batch it finally attempted. |
| ClientLaws.ApplyLoopDiscards | clientDatabase.js:224-247 | The loop only ever discards: first the open transaction when it is non-empty, and only then `pending`. |
| ClientLaws.KeptOnSuccess | clientDatabase.js:218-223 | When the first attempt succeeds, nothing is discarded. |
| ClientLaws.ApplyLoopRethrows | clientDatabase.js:244-246 | The loop throws only when nothing is left to discard and the last attempt failed, and then the store is unchanged. |
| ClientLaws.ApplyLoopReplays | clientDatabase.js:195-251 | After a successful loop, the store is the old store with the attempted batch replayed, and it stays consistent. |
| ClientLaws.RunKeepsInv | clientDatabase.js:121-375 | Every sequence of wrapper operations, including both versions of `undo`, keeps the invariant. The invariant covers a consistent store, stacks of at most 100, non-positive ids, keyed collectors (also after a throw), and a queued timer only while `submitTimeout` is set. |
| ClientLaws.InitialInv | clientDatabase.js:57-75 | The fresh wrapper satisfies the invariant. |
| ClientLaws.ModifyCollects | clientDatabase.js:172-185 | The target collector coalesces its history followed by the batch, and the batch's undo in front of its undo history. |
| ClientLaws.CommitFoldsTransaction | clientDatabase.js:158-164 | `commit` makes `pending` coalesce its history followed by the transaction's changes. |
| ClientLaws.RollbackRestores | clientDatabase.js:140-156 | Opening a transaction, applying one batch and rolling back restores the objects, even when collecting the rollback's own changes throws. |
| ClientLaws.HandleResponseRebases | clientDatabase.js:298-359 | After a response, the store is the old store with, in order, every local change undone, the server's objects applied, and the surviving local changes replayed. |
| ClientLaws.RemapIdempotent | clientDatabase.js:310-338 | Remapping twice equals remapping once when no map target is itself mapped, and a bag with no provisional references is left alone. |
| ClientLaws.StepSends | clientDatabase.js:284-296 | For every operation, including `undo` as written, only a flush sends, and only when no request is pending. Only a response clears the pending request. |
| ClientLaws.RunSends | clientDatabase.js:284-296 | Over any run of the operations, including `undo` as written, the sent batches only grow, and no more are sent than responses allow. |
| ClientLaws.SentAfterResponses | clientDatabase.js:284-296 | From the start, over any run including `undo` as written, at most one batch more than the responses received is ever sent: a single batch is in flight. |
| ClientLaws.StepStalled | clientDatabase.js:253-257 | With `submitTimeout` set and no timer queued, no operation sends, clears it or queues a timer. |
| ClientLaws.FlushThrowStalls | clientDatabase.js:284-286 | After a flush whose closing of the group throws, no run of operations ever sends again. |
| ClientLaws.FlushKeepsPartialMerge | clientDatabase.js:277-286 | A flush whose group was overtaken by a newer `pending` version of the same object throws. `pending` keeps the overwritten data, the group stays, and no timer is left. |
| ClientLaws.StepIds | clientDatabase.js:121-126 | For every operation, including `undo` as written, only an insert with data issues an id, and it decrements the generator by one. |
| ClientLaws.RunIds | clientDatabase.js:121-126 | Over any run, including `undo` as written, the id generator never increases. |
| ClientLaws.IssuedIdsDistinct | clientDatabase.js:121-126 | An id issued later, after any run including `undo` as written, differs from every earlier one. |
| ClientLaws.InsertRecordsUndo | clientDatabase.js:121-126 | An insert stores the object under its new id and records, as the group's undo, the deletion of exactly that object. |
| ClientLaws.FlushRecordsUndo | clientDatabase.js:259-285 | A flush pushes the group's undo on the undo stack. |
| ClientLaws.UndoThenRedoRestores | clientDatabase.js:361-375 | With the corrected undo, undoing a group and redoing it restores the objects. |
| ClientLaws.InsertUndoRedoRestores | clientDatabase.js:361-375 | With the corrected undo: insert, flush, undo and then redo brings the object back. |
| ClientLaws.RedoAfterUndoFails | clientDatabase.js:361-375 | As written, undoing a deletion-only group puts that same group on the redo stack, so redo finds no object and throws. |
| ClientLaws.UndoAsWrittenRedoesItself | clientDatabase.js:361-367 | As written, the redo entry is the undo entry just applied, and the object is gone. |
| ClientLaws.InsertUndoRedoAsWrittenFails | clientDatabase.js:361-375 | As written: insert, flush, undo and then redo throws the missing-object error. |
| IdMapping.MaxId | backend.js:52 | The generator's start is at least every numeric stored id, and is one of them or 0. |
| IdMapping.MapFields | backend.js:84-94 | `mapIDs` throws exactly when some `$` field holds a negative id not mapped yet. Otherwise only those fields are rewritten, to their server ids. |
| IdMapping.MapExpect | backend.js:84-94 | The `true` and falsy `oldData` pass through; an object is mapped as in `MapFields`. |
| IdMapping.MapData | backend.js:84-94 | Null data passes through; an object is mapped as in `MapFields`. |
| IdMapping.AssignId | backend.js:99-114 | A null or negative id that inserts gets the next server id, recorded when it is non-null. An update or delete of a negative id uses its mapping and throws when there is none. Any other id is kept. |
| IdMapping.AssignKeepsIssued | backend.js:99-114 | Every mapped id stays below the generator, the generator only grows, and mappings are never lost. |
| IdMapping.MappedHasNoProvisional | backend.js:84-94 | A successfully mapped object holds no provisional reference. |
| IdMapping.TranslateChange | backend.js:95-116 | A change with neither `oldData` nor `data` is dropped, the only errors are the two unmapped ones, and the generator only grows. |
| IdMapping.Translate | backend.js:95-116 | Translating a batch throws only the two unmapped errors, and the generator only grows. |
| IdMapping.Kept | backend.js:96-98 | The entries that are not dropped. |
| IdMapping.TranslateRenames | backend.js:95-116 | A translated batch has one entry per kept change, each the change renamed. Fresh inserts get increasing new ids above the starting generator. |
| IdMapping.TranslateSettled | backend.js:95-116 | A batch with no provisional ids translates to itself minus the dropped changes. |
| LocalBackend.Create | backend.js:41-60 | Without a saved state, the store is empty, the generator is 0 and an empty answer is queued. With one, the constructor succeeds exactly when the saved batch applies. The generator covers every numeric id, and the saved batch is queued as the first answer. |
| LocalBackend.CreateGenCoversStore | backend.js:41-58 | After construction the store is consistent, and no stored numeric id exceeds the generator. |
| LocalBackend.Deliver | backend.js:68-74 | A timer delivers the head of the queue when it is not a nulled slot. The order of deliveries is kept, and the store is untouched. |
| LocalBackend.Merge | backend.js:127-132 | Merging succeeds exactly when every queued slot is a plain answer. It then nulls every slot and collects their objects in order. |
| LocalBackend.UpdateBatch | backend.js:80-148 | `update2` succeeds exactly when the batch translates and the queue holds only plain answers. It queues one answer, and a throw leaves the store. |
| LocalBackend.UpdateAnswers | backend.js:127-147 | The next delivery answers the batch. On success it carries the merged objects, then the translated batch and the id map. On conflict it carries the merged objects and the error, with no id map and the store unchanged. |
| LocalBackend.FreshIdsAvoidStore | backend.js:99-106 | Every id assigned to a fresh insert is new: above the starting generator, and absent from the store. |
| SyncServer.Startup | node-server.js:21-47 | Start-up succeeds exactly when the whole log replays. The window starts empty, and the generator covers every numeric id. |
| SyncServer.Resolve | node-server.js:205-210 | `oldData: true` becomes exactly the object as the batch so far leaves it (`dbPatchState`, else the store), and throws when there is none. Other expectations pass. |
| SyncServer.StoreChange | node-server.js:185-214 | Changes with neither `oldData` nor `data` are skipped, and the generator only grows. |
| SyncServer.Normalise | node-server.js:230-236 | Normalisation succeeds exactly when every entry has `oldData` or `data`. Each record keeps its id and data, with `oldData` reduced to the placeholder or left out. |
| SyncServer.Trim | node-server.js:219-220 | Trimming drops exactly the leading entries older than 60 s. The last dropped id becomes the window's predecessor. |
| SyncServer.IndexOf | node-server.js:262 | `findIndex`: the first position with that id, or -1 when there is none. |
| SyncServer.Respond | node-server.js:250-281 | Without `after` the reply is the whole store. Every reply carries the last update id, the id map and the error. |
| SyncServer.StoreInDB | node-server.js:169-247 | A failed `storeInDB` changes nothing but the generator's progress, and the generator only grows. |
| SyncServer.HandleUpdate | node-server.js:149-166 | A GET changes nothing. A successful POST answers with the id map, and a failed one answers without it. |
| ServerLaws.ServerNumbersLikeBackend | node-server.js:185-214 | The server numbers and maps a batch exactly as the in-browser back end does. It differs only in resolving `true` placeholders. |
| ServerLaws.StoredEntriesLoggable | node-server.js:205-236 | Every stored entry has real old data or none, so normalisation never throws. |
| ServerLaws.ModifyLogged | node-server.js:230-236 | Applying the logged records has the same effect as applying the batch as stored. |
| ServerLaws.StartupInv | node-server.js:21-47 | After start-up, the log replays to the store and the window mirrors the log's tail. |
| ServerLaws.StoreInDBAtomic | node-server.js:169-216 | A throw leaves everything but the generator unchanged, and the generator only grows. |
| ServerLaws.StoreInDBKeepsLog | node-server.js:169-247 | A stored batch keeps the log replaying to the store. |
| ServerLaws.StoreInDBKeepsWindow | node-server.js:219-227 | A stored batch keeps the window mirroring the log's tail, with the right predecessor and last id. |
| ServerLaws.TrimKeepsWindow | node-server.js:220 | Trimming keeps the window mirroring the log. |
| ServerLaws.CatchUpSendsLaterBatches | node-server.js:256-273 | With unique ids, catching up after any batch the window still covers answers with exactly the batches after it. |
| ServerLaws.CatchUpFromTrimmedFails | node-server.js:262-268 | Catching up after a batch trimmed from the window answers 500. |
| ServerLaws.CatchUpEndsWithNewest | node-server.js:256-273 | A catch-up reply ends with the newest batch. |
| ServerLaws.PostAnswersWithOwnBatch | node-server.js:250-281 | A successful POST's reply ends with the batch just stored, and carries its id map and the new update id. |
| LogFormat.EncodeInt32 | node-server.js:238-239 | `writeInt32LE` writes four bytes, and throws exactly for values outside the signed 32-bit range. |
| LogFormat.DecodeInt32 | node-server.js:26-27 | `readInt32LE` yields a signed 32-bit value. |
| LogFormat.Int32RoundTrip | node-server.js:26-27 | Reading back a written integer gives it again, and any four bytes are the writing of what they read as. |
| LogFormat.WriteFrame | node-server.js:237-242 | A record is the 8-byte header followed by the metadata and the payload. |
| LogFormat.WriteFrames | node-server.js:237-242 | A log writes exactly when every record does. |
| LogFormat.ReadWrittenFrame | node-server.js:21-31 | Reading a written record followed by anything yields the record, then what the rest reads as. |
| LogFormat.ReadWrittenFrames | node-server.js:21-38 | The start-up loop reads back exactly the records written. |

## Left out

- Browser and node I/O is not modelled. This covers `localStorage`, `alert`, JSON encoding, HTTP routing, static files, body size limits, `writeSync`/`fsyncSync` and console logging. The log is a sequence of decoded records, and LogFormat models only its byte layout.
- `Math.random` and `Date` are parameters: the update id `freshId` and the time `now`.
- The client's `init` handshake, and the back end's `persist`, are not modelled.
- The `inParallel` branch of `update2` is not modelled, because it refers to the undefined `otherObjects`.
- `Database.add`, `update` and `remove` are not modelled, because they pass the wrong arguments to `modify`. The unused `checkRefs` is left out too.
- The try/catch around each listener is left out. Listeners are recorded calls that cannot throw.
- `mergeAllRequireExistingKeys` can throw after it has already written some keys into `m`. DiffMapSets.MergeAllRequireExistingKeys returns only the failure. The store never reaches that throw, because StoreLaws.MergeSucceeds proves the merge succeeds once the integrity checks pass.
- IdMapping.MaxId takes the maximum of the numeric ids only. In JavaScript, `Math.max` over a non-numeric id gives `NaN`.
- JavaScript's loose `!=` is modelled as equality of values, so `1` and `"1"` differ here.
- JavaScript's `<` on values other than numbers is not modelled: only a number can be negative.
- GraphStore.Step: a `$` field whose target's `type` is not a string always fails the target-type check. In JavaScript such a target throws a TypeError or compares against `NaN`.
- SyncClient.Flush requires a queued timer, because the timer only fires after `submit` queued it.
- SyncClient.HandleResponse keeps two defects of the source without fixing them. First, the remap of `pending` and of the transaction iterates array indices (`for…in`), so nothing is remapped. Second, the redo stack is not remapped.
- SyncClient.Rollback follows the code: the rollback's own undo goes into the transaction that is then discarded. So a rollback is neither undoable nor sent to the server.
- Errors thrown as a bare `new Error()` have no message, so the server's reply then carries no `error` field (SyncServer.Message).
- `storeInDB` does not undo the generator's advance when it throws. SyncServer.StoreInDB keeps that advance, as the code does.
- SyncServer.Respond models the 500 reply as `NotFound`, without its text body.
- A second `update2` before the first answer is delivered reads `.error` of a nulled queue slot. LocalBackend.Merge models this as the `NullAccess` error. The client never sends while a request is pending, so it cannot reach this.

## Findings

The as-written `undo` is SyncClient.UndoAsWritten, with the general laws ClientLaws.RedoAfterUndoFails and ClientLaws.UndoAsWrittenRedoesItself. The corrected `undo` is SyncClient.Undo, which pushes through SyncClient.MakeRedoEntry; the general law about it is ClientLaws.UndoThenRedoRestores. The operations of a run (`SyncClient.Op`) offer both: `UndoOp` is the corrected `undo` and `UndoAsWrittenOp` the one as written, and the run laws of ClientLaws hold for both.

| source | as written | input that shows it | evidently intended | confidence | as-written member | corrected member |
|---|---|---|---|---|---|---|
| clientDatabase.js:361-367 | `undo()` applies the popped undo entry and then calls `makeUndoEntry(true)`, which pushes `current.getChanges()` onto the redo stack. Those are the undo entry's own changes. | Insert an object, let the flush close the group, undo, then redo. The redo re-applies the deletion to an object that no longer exists and throws. | The redo entry should be the applied group's undo steps (`current.getUndo()`), so that redo re-does what undo undid. | not executed | ClientLaws.InsertUndoRedoAsWrittenFails | ClientLaws.InsertUndoRedoRestores |
