# Job-status store of the Stable Diffusion REST API

This project models the job-status store of the Stable Diffusion REST API
(`src/utilities/create-database.ts`). The REST layer uses the store to
track each image-generation job. A job is named by a type (for example
`text-to-image`) and an id. Its record lives under the key `type/id` in a
key-value database. A record holds:

- a status: `QUEUED`, `IN_PROGRESS` or `COMPLETE`;
- a `resultUrl`;
- one image slot per sample, each slot a url and a progress value.

The store has five operations:

- queue a job, which writes a fresh record;
- report progress, which builds the slots on first use, updates one slot and marks the job in progress;
- mark a job done;
- look up a job;
- sweep away every job that never completed. This runs at start-up.

Modules:

- `Results` (`results.dfy`): `Option`, `Result` and `Outcome` wrappers.
- `JobKeys` (`job_keys.dfy`): `CreateKey`, the decimal numerals written into image urls, `ImageUrl`, and `SplitKey`, which splits a key at its first `/`. `CreateKey` has no inverse in general, because two jobs can share a key (`CreateKeyCollision`). What is proved is narrower:
  - joining the two parts `SplitKey` returns always gives back the key;
  - `SplitKey(CreateKey(t, i))` gives back `(t, i)` when `t` contains no `/`, so such jobs never share a key.
- `JobRecords` (`job_records.dfy`): the record datatypes (`JobRecord` is the source's `RestApiResponse`) and the change each operation makes to one record. A record read from the database is a fresh JSON-decoded copy, so the in-place edits the source makes before writing it back are modelled on values.
- `JobStore` (`job_store.dfy`): the whole table as a `map<string, JobRecord>`. It defines the table each operation leaves behind, and lemmas that relate several operations: idempotence, the well-formedness invariant, and an end-to-end scenario.
- `StatusDatabase` (`status_database.dfy`): class `Database`, whose `db` field is the table. Its methods perform the operations in place, in the source's own steps: the slot-filling `while` loop and the sweep loop that collects keys to delete. Each method is proved to leave exactly the table the `JobStore` function describes. Each also keeps every record well formed: the record's `resultUrl` is its key, and slot `i`'s url is `key/(i+1).png`.

Where one might expect the store to be stricter than it is, the model follows the code:

- One might expect a job's status to move only forward (queued, in progress, complete). The code lets queueing again reset a `COMPLETE` job, and lets a progress report reopen a `COMPLETE` job, including one marked done before any report (`RequeueResetsCompleted`, `ProgressReopensCompleted`, `DoneBeforeProgressReopens`).
- One might expect a report's slot to be checked against its `totalSamples`. The code checks it against the length of the existing image list and ignores a later `totalSamples` (`SlotCountFixed`).
- The code has no explicit range check on `currentSample`. When it is out of range, `images[currentSample - 1]` is `undefined`, and assigning its `progress` throws before the record is written back. So the store is left unchanged, and the model reports `IndexOutOfRange`.
- One might expect the sweep to finish before the function returns. The code submits its batch of deletions without awaiting it. The model gives the batch's net effect.

## Model

| member | source | states |
|---|---|---|
| `JobKeys.CreateKey` | src/utilities/create-database.ts:107-109 | the key is the type, then one `/`, then the id, with nothing else |
| `JobKeys.DecimalString` | src/utilities/create-database.ts:79 | the slot number is written as a non-empty string of decimal digits, with a leading `0` only for 0 |
| `JobKeys.ImageUrl` | src/utilities/create-database.ts:79 | a slot url is the job's key, a `/`, the slot number's numeral and `.png` |
| `JobKeys.ParseDecimalString` | src/utilities/create-database.ts:79 | the numeral written for a slot number reads back as that number |
| `JobKeys.DecimalStringInjective` | src/utilities/create-database.ts:79 | different slot numbers are written as different numerals |
| `JobKeys.ImageUrlInjective` | src/utilities/create-database.ts:79 | two slot numbers of one job never give the same url `type/id/n.png` |
| `JobKeys.SplitKey` | src/utilities/create-database.ts:107-109 | splitting a key at its first `/` gives a type without `/` and an id that join back to the key; no split exists iff the key has no `/` |
| `JobKeys.SplitCreateKey` | src/utilities/create-database.ts:107-109 | a key built from a type without `/` splits back into that type and id |
| `JobKeys.CreateKeyInjective` | src/utilities/create-database.ts:107-109 | jobs whose types contain no `/` never share a database key |
| `JobKeys.CreateKeyCollision` | src/utilities/create-database.ts:107-109 | without that restriction, jobs `a/b`,`c` and `a`,`b/c` share the key `a/b/c` |
| `JobRecords.QueuedRecord` | src/utilities/create-database.ts:54-58 | a freshly queued record has status `QUEUED`, no images, and `resultUrl` equal to the job's key |
| `JobRecords.InitialImages` | src/utilities/create-database.ts:75-82 | the slot-filling loop yields exactly `totalSamples` slots (none when it is not positive), slot `i` with url `key/(i+1).png` and progress 0 |
| `JobRecords.WithProgress` | src/utilities/create-database.ts:73-85 | a report succeeds iff `1 <= currentSample <=` the slot count (the existing length, or `totalSamples` when there are no slots yet); on success the status is `IN_PROGRESS`, `resultUrl` is kept, the named slot holds the new progress, existing urls and all other slots are kept, and fresh slots have urls `key/(i+1).png` and progress 0; otherwise `IndexOutOfRange` |
| `JobRecords.Completed` | src/utilities/create-database.ts:94 | marking done sets status `COMPLETE` and keeps the images and `resultUrl` |
| `JobRecords.QueuedRecordWellFormed` | src/utilities/create-database.ts:56 | a queued record's `resultUrl` equals its database key |
| `JobRecords.WithProgressWellFormed` | src/utilities/create-database.ts:73-84 | a progress report keeps `resultUrl == key` and every slot url `key/(i+1).png` |
| `JobRecords.CompletedWellFormed` | src/utilities/create-database.ts:94 | marking done keeps a record well formed |
| `JobRecords.WellFormedUrlsDistinct` | src/utilities/create-database.ts:75-82 | the slots of a well-formed record have pairwise distinct urls |
| `JobRecords.CompletedIdempotent` | src/utilities/create-database.ts:94 | completing a record twice equals completing it once |
| `JobRecords.SlotCountFixed` | src/utilities/create-database.ts:74 | after a successful report, the slot count no longer depends on the `totalSamples` of later reports |
| `JobStore.AfterQueued` | src/utilities/create-database.ts:47-61 | queueing maps `type/id` to a record with status `QUEUED`, no images and `resultUrl` equal to the key, overwriting any earlier record; every other key is unchanged |
| `JobStore.AfterInProgress` | src/utilities/create-database.ts:63-86 | a report fails with `RecordNotFound` when the key is absent, fails with `IndexOutOfRange` iff the slot is out of range, and otherwise changes only that key's record, as `WithProgress` |
| `JobStore.AfterDone` | src/utilities/create-database.ts:88-96 | marking done fails with `RecordNotFound` iff the key is absent; otherwise only that record changes, to status `COMPLETE` with images and `resultUrl` kept |
| `JobStore.AfterDeleteIncomplete` | src/utilities/create-database.ts:22-32 | after the sweep the keys are exactly the old keys whose status is `COMPLETE`, and their records are unchanged |
| `JobStore.ResultUrlIsKey` | src/utilities/create-database.ts:56 | in a well-formed table every record's `resultUrl` is its own key |
| `JobStore.AfterQueuedWellFormed` | src/utilities/create-database.ts:47-61 | queueing keeps the table well formed |
| `JobStore.AfterInProgressWellFormed` | src/utilities/create-database.ts:63-86 | a progress report keeps the table well formed |
| `JobStore.AfterDoneWellFormed` | src/utilities/create-database.ts:88-96 | marking done keeps the table well formed |
| `JobStore.AfterDeleteIncompleteWellFormed` | src/utilities/create-database.ts:22-32 | the sweep keeps the table well formed |
| `JobStore.AfterDoneIdempotent` | src/utilities/create-database.ts:88-96 | marking a job done twice leaves the same table as marking it done once |
| `JobStore.AfterDeleteIncompleteIdempotent` | src/utilities/create-database.ts:22-32 | a second sweep deletes nothing |
| `JobStore.RequeueResetsCompleted` | src/utilities/create-database.ts:52-58 | queueing a completed job again resets it to `QUEUED` with no images |
| `JobStore.ProgressReopensCompleted` | src/utilities/create-database.ts:73-84 | a progress report whose slot is in range (of the existing slots, or of `totalSamples` when there are none) sets a completed job back to `IN_PROGRESS` |
| `JobStore.DoneBeforeProgressReopens` | src/utilities/create-database.ts:73-96 | a job queued and marked done with no slots is reopened by a report of sample 1 of 2 and gets two slots |
| `JobStore.TextToImageScenario` | src/utilities/create-database.ts:47-96 | queue `text-to-image/abc`, report sample 1 of 2 at 0.5: the record is `IN_PROGRESS` with slots `.../1.png` at 0.5 and `.../2.png` at 0; then done gives `COMPLETE` |
| `StatusDatabase.Database.Open` | src/utilities/create-database.ts:19-20 | opening the store exposes the records already in its directory; the store is valid when those records are well formed |
| `StatusDatabase.Database.GetStatus` | src/utilities/create-database.ts:34-45 | the lookup returns the record stored under `type/id`, and `None` exactly when there is none; in a valid store the returned record's `resultUrl` is `type/id`; it changes nothing |
| `StatusDatabase.Database.SetStatusToQueued` | src/utilities/create-database.ts:47-61 | the table becomes `AfterQueued` of the old table and stays well formed |
| `StatusDatabase.Database.SetStatusToInProgress` | src/utilities/create-database.ts:63-86 | the table becomes the `AfterInProgress` table and the method passes, or it fails with that error and the table is unchanged; the table stays well formed |
| `StatusDatabase.Database.SetStatusToDone` | src/utilities/create-database.ts:88-96 | the table becomes the `AfterDone` table, or `RecordNotFound` is returned and the table is unchanged; the table stays well formed |
| `StatusDatabase.Database.DeleteIncomplete` | src/utilities/create-database.ts:22-32 | the collected deletions leave exactly `AfterDeleteIncomplete` of the old table, which stays well formed |

## Left out

- The LevelDB database (`new Level`, `get`, `put`, `iterator`, `batch`) and its JSON value encoding: a foreign storage engine. It is the `db` map field. `Open` takes the directory's existing contents in place of a path.
- Storage failures: any failure of `db.get` inside `getStatusAsync` is caught and turned into `null`. The model has no storage faults, so only the absent-key case of that catch is modelled.
- Promises, async iteration, and the races between concurrent read-modify-write calls on one key: concurrency, not sequential behaviour. Each method is one atomic step.
- The sweep's unawaited `db.batch`: only its net effect on the table is modelled.
- The sweep's visiting order: LevelDB iterates in key order, while the model picks unvisited keys in any order. The set of deleted keys does not depend on the order.
- Exception types and message strings: errors are the values `RecordNotFound` and `IndexOutOfRange`.
- The progress value's numeric meaning: it is a `real` that is only stored. `0.0` stands for the source's `0`.
- Slot numbers and counts are unbounded integers, not JavaScript doubles. `DecimalString` is the numeral a template literal writes only below 1e21, where JavaScript switches to exponent form. The fill loop's `i += 1` stops increasing at 2^53. Neither bound is reached by a real job.
- `currentSample` and `totalSamples` are integers. A fractional JavaScript number (which would, for example, make the fill loop run to the next integer) is not modelled.
- `src/cli.ts`: command-line option parsing and the call that starts the server. This is plumbing with no logic of this store.
