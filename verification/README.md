# Verified model of the Teslatlas edge spool

The edge receives vehicle telemetry envelopes, keeps them in a durable, bounded, encrypted spool and
delivers them to a hub. This project models the spool, the identities and limits it relies on, and the
credential store, and proves what they promise. `dafny verify dfyconfig.toml` checks everything.

## How the model is built

- **Durable steps.** A directory (`Durable.Disk`) changes by steps: one completed atomic write, one
  removal, one move to quarantine. A step has a guard (`Enabled`) and an effect (`Apply`). A run is a
  sequence of such steps from an empty directory. The process may stop between any two steps, so
  whatever holds in every world of every run holds after every stop. Two further steps come from
  outside: `Orphan`, a stop inside a write, and `Damage`, an alteration of a pending file.
- **The queue.** `Durable.View` is what a directory stands for: each number holds a record, a gap or a
  damaged file, unless a receipt accepts it. A counted pending file is already the gap that will be
  written for it. Admission, acknowledgement and expiry each change the queue in exactly one step. Of the
  other steps only damage and the gap written for a damaged record change it (`Safety`).
- **History.** A world also records what was ever admitted, acknowledged and counted, whether or not a
  file of it is left. Conservation, uniqueness of numbers, the contiguous frontier and exactly-once
  expiry are statements about it in every world of every run.
- **Memory.** `Cache.State` is the spool's in-memory state, `Machine.Store` the directory as an object
  that outlives the process, `Spools.Spool` the object with the public operations. `Cache.Steady`
  says that memory and directory agree between operations; every operation keeps it, and recovery
  establishes it from any stop. Each operation carries out the source's loops and writes step by step
  and is proved against the queue: `Gains`, `Loses`, `Expires`, `Unmoved` and `Kept` say how the queue
  changes and that every intermediate directory holds the old or the new queue.
- **Damage.** `Spools.Spool.AlteredOutside` takes an open spool to one with a damaged pending file,
  with memory and directory still in agreement, so every run-time operation may follow. Admission,
  replay and the effect of an accepted acknowledgement are exact there too, and an Ok batch is the
  prefix of the queue. Building a batch then turns damaged records into gaps, which `Kept` allows only
  with damage; the exact effect of expiry and opening are stated for unaltered directories.

Modules: `Finite`, `Json`, `Wire`, `Limits`, `Encoding` (sums, values, identities, limits, JSON as
bytes); `Durable`, `Invariant`, `Safety` (steps, what they keep, whole runs); `Cache`, `Machine`,
`Expiry`, `Batch`, `Delivery`, `Receipts`, `Admit`, `Acknowledge`, `Legacy`, `Recovery`, `Spools`,
`Recurring` (state and operations); `Promises` (what the operations mean to their callers, field by
field); `FileNames`, `Migration`, `Credentials`.

## Abstractions

- A SHA-256 digest is an injective constructor over what was hashed; a batch identifier is the
  sequence of item keys. Encryption is intact or corrupt contents with a fixed overhead of 56 bytes.
- JSON objects are maps. A number keeps the text it is serialised with, which encoded lengths use, and
  the number it stands for, which identities use: 1 and 1.0 have one identity and two lengths. Encoded
  lengths are counted structure by structure and proved to be those of the JSON written (`Encoding`).
- Pending, gap and receipt files are keyed by the number their name starts with. Every write is proved
  to go to an unused number.
- Clocks, random identifiers, secrets and the order of record identifiers (`rank`, injective) are
  parameters. `Config` is one that passed the limits of the configuration file.
- The current format of the spool directory is 4, as in `src/spool.rs:37`; some documents still say 3.

## Findings

- An acknowledgement that sends no identifier is accepted (`Acknowledge.NothingAcknowledged`) and stored
  as a receipt for its batch. The batch stays current, so everything else acknowledged of it is refused:
  acknowledging the rest works if and only if the first acknowledgement sent an identifier
  (`Spools.RestIsAccepted`), and the refusal lasts as long as the receipt (`Spools.StaysRefused`).
- A version 1 batch identifier names records and can recur, and `src/spool.rs:624-633` then answers with
  the old receipt. An acknowledgement of records of the current batch removes them if and only if version
  1 never acknowledged that identifier before and no version 1 receipt was pruned; otherwise it removes
  nothing (`Spools.LegacyTakesEffect`). Three inputs: an acknowledgement without record ids blocks its
  batch (`Spools.LegacyRestIsRefused`); it blocks it again when the same batch recurs after another
  record came and went (`Recurring.OldReceiptRefuses`, carried out by `Recurring.BlockByEmpty`); and a
  record that is acknowledged and admitted again is answered with Ok, although
  `docs/reference/hub-delivery-contract.md:134` calls the answer the exact deletion result, and stays
  (`Recurring.ReadmittedStays`, carried out by `Recurring.Readmit`).
- Numbering of old records ignores the stored next number and may reuse numbers
  (`Migration.StoredNextIgnored` gives the exact condition, `Migration.StoredNextReused` an input).
- Parsing a pending file name accepts a plus sign before 19 digits (`FileNames.ParseIsExact`).
- Saving credentials never checks the size that loading insists on. A mutation that takes the file past
  1 MiB succeeds, and from then on every verification, rotation and revocation fails
  (`Credentials.SavedFileLoads`, `Credentials.OthersVerifyAlike`, at an input
  `Credentials.FullStoreLocksOut`).
- A credential issued with the clock at the largest 64-bit value makes the store unreadable
  (`Credentials.SavedFileLoads`, at an input `Credentials.LastInstantLocksOut`).
- A second rotation replaces the overlap deadline of the first, so it may extend it
  (`Credentials.RotationExtends` says exactly when, `Credentials.SecondRotationExtends` gives an input).

## Model

| member | source | states |
|---|---|---|
| `Json.Visit` | src/protocol.rs:389-399 | The fold accepts a document exactly when no object at any depth repeats a key, and then returns the value the document means |
| `Json.VisitArray` | src/protocol.rs:454-463 | The element loop accepts exactly the arrays all of whose elements are accepted and keeps their order |
| `Json.VisitObject` | src/protocol.rs:465-480 | The member loop accepts exactly the objects with distinct keys and accepted values, and maps every key to its value |
| `Json.MeaningIsDenoted` | src/protocol.rs:389-480 | An accepted document stands, token by token, element by element in order and member by member, for exactly one value, the one returned |
| `Json.SameMeaningIsReordering` | src/protocol.rs:465-480 | Two accepted documents mean the same value if and only if one is the other with object members reordered |
| `Json.CanonIsAlike` | src/protocol.rs:87-129 | Two values have one canonical form if and only if they have the same structure and differ at most in how whole and fractional numbers are spelled |
| `Json.Measure` | src/spool.rs:350-367 | The encoded length of a value does not depend on the order in which object members are taken |
| `Wire.LegacyIdIsExact` | src/protocol.rs:87-96 | Two envelopes share the version 1 identifier if and only if every field agrees, payloads up to the spelling of numbers |
| `Wire.StableIdIsExact` | src/protocol.rs:98-129 | Two valid envelopes share the stable identifier if and only if every field but the arrival time agrees, payloads up to the spelling of numbers |
| `Wire.VinDecides` | src/protocol.rs:177-183 | A vehicle identification number is accepted if and only if it has 17 characters of the alphabet without I, O and Q |
| `Wire.TextsDecide` | src/protocol.rs:131-191 | Version, transaction identifier, labels and payload are accepted if and only if they are 1, visible ASCII of their lengths and an object |
| `Wire.TypeDecides` | src/protocol.rs:141-155 | A transaction type is accepted if and only if its letters and digits spell one of the six words, whatever the case |
| `Wire.TimesDecide` | src/protocol.rs:156-161 | Times are accepted if and only if they are from 2000 on and the event is at most five minutes ahead of its arrival |
| `Wire.IdentityIgnoresKeyOrder` | src/protocol.rs:87-129 | Reordering the members of the incoming document changes neither identifier, whatever decoder reads the envelope from the value of the document |
| `Wire.GapFitsWhereRecordFits` | src/spool.rs:571-586 | A gap notice never encodes longer than the record it replaces, so it fits any batch its record was admitted for |
| `Encoding.WrittenLength` | src/spool.rs:350-367 | However a value is written as compact JSON, its bytes are as many as counted |
| `Encoding.HasText` | src/spool.rs:350-367 | Every value can be written so |
| `Encoding.DecimalIsExact` | src/spool.rs:350-367 | Decimal digits read back as the number, without leading zeros, as many as counted |
| `Encoding.RecordV1IsEncoded` | src/protocol.rs:232-238 | A version 1 record is as long as counted |
| `Encoding.RecordV2IsEncoded` | src/protocol.rs:293-301 | A version 2 record is as long as counted |
| `Encoding.GapIsEncoded` | src/protocol.rs:303-318 | A gap notice is as long as counted |
| `Encoding.StoredIsEncoded` | src/spool.rs:213-225 | The contents of a pending file are as long as counted |
| `Encoding.CredentialIsEncoded` | src/credentials.rs:329-341 | A credential in the indented store is as long as counted |
| `Encoding.StoreIsEncoded` | src/credentials.rs:322-341 | The indented store is as long as counted |
| `Limits.ValidLimitsAreAccepted` | src/config.rs:149-159 | Limits validate exactly when they convert to a configuration within the bounds the spool arithmetic needs, and the spool accepts that configuration |
| `Limits.LimitsAsDocumented` | src/config.rs:149-159 | The accepted limits in the documented units, and the configuration they become |
| `Invariant.StepKeeps` | src/spool.rs:319-1078 | Every durable step of every operation, allowed by its guard, keeps the whole directory invariant |
| `Invariant.LegalKeeps` | src/spool.rs:319-1384 | The invariant holds in every world of every run from an empty directory, so at every possible stop |
| `Invariant.LegalStep` | src/spool.rs:2153-2171 | A run stays legal when one more allowed write or removal completes |
| `Invariant.AdmittedIsAdmissible` | src/spool.rs:341-392 | Every record ever given a number was valid, readable and within one batch of either version |
| `Safety.HousekeepingKeepsView` | src/spool.rs:869-905 | Removing what a receipt or gap stands for, writing a counted gap, forgetting settled counts and pruning settled receipts never change the queue |
| `Safety.AdmitExtendsView` | src/spool.rs:394-397 | The record write alone adds exactly the record to the queue, at a number not in it |
| `Safety.AcceptShrinksView` | src/spool.rs:771-797 | The receipt write alone removes exactly the accepted numbers, all of which were in the queue |
| `Safety.CountExpiresView` | src/spool.rs:971-985 | The counting write alone turns exactly the newly counted records into their gaps |
| `Safety.AckedByReceipt` | src/spool.rs:771-806 | A number is acknowledged exactly when some receipt written during the run accepts it |
| `Safety.Conservation` | src/spool.rs:397-422 | In every world of a run an admitted occurrence is in the queue or acknowledged, never both, never neither, and nothing else is |
| `Safety.LiveItem` | src/spool.rs:957-1010 | A live item is the admitted record itself until its expiry is counted and the retention gap of that very record afterwards |
| `Safety.HistoryGrows` | src/spool.rs:1290-1333 | Admissions, acknowledgements and counted expiries are never forgotten, the next number never decreases and the pruned flag never clears, over any stretch of a run |
| `Safety.RemovalNeedsReceipt` | src/spool.rs:869-893 | When no file of an admitted occurrence is left, a receipt for it became durable before |
| `Safety.NumbersAreUnique` | src/spool.rs:339-340 | Two stored occurrences of a run get different numbers, ascending in time, whatever stops, drains and reopenings lie between |
| `Safety.NextNumberFromDisk` | src/spool.rs:1317-1333 | The next number follows from the files alone, also after a stop between the record write and the sequence write, and lies above every number on disk |
| `Safety.Frontier` | src/spool.rs:739-762 | With version 2 acknowledgements only, the acknowledged numbers are exactly 1..f and the queue is exactly the interval between f and the next number |
| `Safety.AcceptedOnlyOnce` | src/spool.rs:771-806 | No number is accepted by two receipts of a run |
| `Safety.AcceptedInOrder` | src/spool.rs:739-762 | What a version 2 receipt accepts comes before everything any later receipt accepts, so version 2 acknowledges every number once and in order |
| `Safety.ReceiptsNameFirst` | src/spool.rs:739-806 | In every world of a run, everything before the first item that the batch of a version 2 receipt names is acknowledged, and the two versions never share a batch identifier |
| `Safety.ExactlyOnceExpiry` | src/spool.rs:957-985 | The stored total equals the number of different occurrences ever counted as expired, and no two steps of a run count the same one |
| `Safety.ReceiptRetained` | src/spool.rs:907-941 | A durable receipt never changes and stays until a step prunes it |
| `Safety.NewestUnpruned` | src/spool.rs:907-941 | A receipt is not pruned before 1024 further ones are written |
| `Safety.PrunedIsOldest` | src/spool.rs:907-941 | Read off the guard of the step: a pruned receipt was the oldest of more than 1024, and a version 1 receipt is pruned only with the pruned flag durable; that the loop keeps to the guard is in Receipts.PruneReceipts |
| `Safety.CapacityHolds` | src/spool.rs:374-392 | Occurrences, pending bytes, gap bytes and quarantine stay within the configuration in every world of a run |
| `Safety.OnlyAdmissionRaises` | src/spool.rs:374-379 | No step except a record write raises the number of occurrences on disk |
| `Machine.Store.Perform` | src/spool.rs:2153-2171 | One durable step: the directory becomes the one after the step and the run grows by it |
| `Machine.RemoveAdmitted` | src/spool.rs:2045-2084 | Removes the exact occurrence if it is still there, forgets its count, keeps every cache in agreement and the queue unchanged |
| `Machine.RemoveExpiredBacking` | src/spool.rs:2018-2043 | Finds and removes exactly the counted pending file a gap identifier stands for, and nothing if it is gone |
| `Machine.ApplyReceipt` | src/spool.rs:872-895 | Afterwards exactly the accepted numbers have lost their files; caches agree and the queue is unchanged |
| `Machine.CompleteReceipt` | src/spool.rs:869-905 | Afterwards nothing the receipt accepts is left, memory and disk agree again, the queue is unchanged at every step on the way |
| `Machine.Persist` | src/spool.rs:1728-1751 | Writing the sequence state catches the disk up with memory without counting or changing anything |
| `Expiry.PersistGap` | src/spool.rs:1022-1078 | Exact outcome: an existing notice is kept, a different one of the number refused, gap bytes are the only shortage, otherwise the notice is written and cached |
| `Expiry.DueEntries` | src/spool.rs:945-956 | The entries past their deadline or already counted, all of them and in sequence order |
| `Expiry.CountDue` | src/spool.rs:957-970 | Keeps all old counts, adds every due entry without a gap under its identity and returns how many were added |
| `Expiry.TallyAllowed` | src/spool.rs:957-985 | The tally counts exactly the records of the queue that are due, for the first time each, and its total fits in 64 bits |
| `Expiry.RecordExpiries` | src/spool.rs:957-985 | One write turns all due records into gaps; its return value is their number |
| `Expiry.MaterialiseAll` | src/spool.rs:986-1010 | Gap files are written and their backing removed for every waiting entry whose gap fits; agreement is kept and the queue unchanged |
| `Expiry.ExpireDue` | src/spool.rs:943-1020 | Undamaged it succeeds, returns the number of due records and turns exactly these into gaps; any stop leaves the old or the new queue; a gap stays without its own file only if gap storage has no room for it |
| `Batch.BatchIsUnique` | src/spool.rs:498-601 | A queue determines its version 2 batch and batch identifier |
| `Batch.EmptyOnlyIfNothingPending` | src/spool.rs:498-601 | A batch is empty if and only if the queue is, given that each item fits by itself |
| `Batch.MergedIsQueueOrder` | src/spool.rs:1942-1962 | Merging the records and gaps of a batch by number gives back the queue order, so the identifier names the items in that order |
| `Batch.IsMergedPrefix` | src/spool.rs:1964-2004 | Returns true if and only if the accepted identifiers are exactly those of the first k items of the batch, for some k |
| `Delivery.ReadEntryIsExact` | src/spool.rs:1637-1670 | An entry reads back as exactly the admitted record unless its file was altered from outside, and then as corrupt |
| `Delivery.QuarantineEntry` | src/spool.rs:1672-1695 | The integrity gap, made from the stable identity, is durable before the file moves to quarantine; exactly this entry goes, all caches keep agreeing; it succeeds if and only if gap and file fit |
| `Delivery.Candidates` | src/spool.rs:506-526 | All entries and gaps in strictly ascending order, refused only if a pending and a gap file share a number |
| `Delivery.ItemFits` | src/spool.rs:571-586 | Every item of a queue, record or gap, fits a batch by itself, so the oversize error is unreachable |
| `Delivery.Take` | src/spool.rs:529-566 | A candidate is read as the item of the queue; it fails if and only if it is a damaged entry that is counted or does not fit quarantine |
| `Delivery.Add` | src/spool.rs:566-590 | Adds the item exactly when the count per kind and the bytes allow it, and otherwise ends the batch |
| `Delivery.Collect` | src/spool.rs:528-593 | The loop collects exactly the longest fitting prefix, or reports that damaged entries were quarantined and fewer entries remain |
| `Delivery.BuildBatchV2` | src/spool.rs:498-601 | An Ok batch is exactly the longest fitting prefix of the queue in sequence order; undamaged it is always Ok and changes nothing; each rebuild has fewer entries |
| `Promises.BatchCarries` | src/spool.rs:555-561 | Every record of a batch carries the stored envelope, admission time and identifiers, and every gap is the notice in the queue |
| `Promises.BatchIsLongest` | src/spool.rs:528-593 | A batch takes the queue from its lowest number without leaving one out, within items, bytes and 256 of each kind, and stops only where the next item does not fit |
| `Promises.BatchIdNames` | src/spool.rs:1942-1962 | The batch identifier names exactly what the batch delivers, by number, kind and identifier, in ascending order |
| `Receipts.ReceiptIsReadable` | src/spool.rs:780-790 | Every receipt of an acknowledgeable batch stays below the 160 KiB limit it is read back with |
| `Receipts.Oldest` | src/spool.rs:914-919 | A receipt with the lowest sequence of all |
| `Receipts.PruneReceipts` | src/spool.rs:907-941 | Exactly the newest 1024 receipts stay, the queue is unchanged, and the pruned flag is set if and only if it was or a version 1 receipt went |
| `Receipts.StoreReceipt` | src/spool.rs:791-806 | The queue loses exactly the accepted numbers in one step; any stop leaves the old or the new queue; the new receipt is retained |
| `Admit.IndexFindsEvent` | src/spool.rs:336-338 | The stable index holds an identifier exactly when an occurrence of the same event is pending, and names that occurrence |
| `Admit.CheckRoom` | src/spool.rs:350-392 | Succeeds exactly when the record fits a batch of either version, the directory and a readable file; the second byte check never fails; otherwise it names the shortage exactly |
| `Admit.Enqueue` | src/spool.rs:319-423 | Decides exactly between invalid, already present, stored and refused; a stored record enters the queue at the next number in one step, everything else changes nothing |
| `Promises.LifetimeIsRetention` | src/spool.rs:347 | A stored record is due if and only if more than the configured retention has passed since its admission |
| `Promises.AdmissionIsExact` | src/spool.rs:319-392 | Stored, already present and every refusal, each decided by the files, the pending events and the encoded lengths |
| `Promises.DeliveredAsSent` | src/spool.rs:536-566 | In every batch of every later directory a stored envelope is delivered unchanged, with its admission time and both identifiers, or as the gap that tells its identity and the instant it expired |
| `Promises.ExpiredTells` | src/spool.rs:945-1010 | An expiry turns exactly the records past their expiry into gaps with their number, stable identity and expiry instant, and changes nothing else |
| `Promises.DeferredOnlyWhenFull` | src/spool.rs:986-1010 | After an expiry an expired record has its own gap file unless that file does not fit the gap storage |
| `Acknowledge.ReceiptAdmissions` | src/spool.rs:837-867 | The exact occurrences behind the accepted identifiers, in delivery order; it cannot fail for a delivered batch |
| `Acknowledge.Matches` | src/spool.rs:739-762 | True if and only if the identifier is that of the batch and the accepted ids are exactly its first items; the two membership checks are implied |
| `Acknowledge.Examine` | src/spool.rs:739-790 | Produces a receipt accepting exactly the acknowledged numbers if the acknowledgement names a prefix of the current batch, and refuses otherwise |
| `Acknowledge.MayAccept` | src/spool.rs:763-790 | The receipt has the shape recovery insists on, names live items only and leaves nothing live before them |
| `Acknowledge.Replay` | src/spool.rs:718-738 | A retained receipt gives the same answer to the same identifiers, refuses others, and no entry, gap or item changes |
| `Promises.ReplayIsReordering` | src/spool.rs:718-738 | A retained receipt answers exactly the acknowledgements that send its identifiers in any order, with its own lists |
| `Acknowledge.AcceptNew` | src/spool.rs:739-806 | Accepted if and only if it names the current batch and a prefix of it; then exactly this prefix leaves the queue, in one step, and the newest receipt holds the very identifiers sent, in their order; with damaged files the same holds of the queue that looking up the batch leaves |
| `Promises.AcceptedMeans` | src/spool.rs:739-762 | Accepted if and only if it names the current batch and sends the identifiers of everything delivered up to some number |
| `Promises.AcceptedGoes` | src/spool.rs:763-806 | And then exactly the numbers delivered up to that one go |
| `Acknowledge.OnlyTheDelivered` | src/spool.rs:1942-1962 | An acknowledgement only reaches occurrences its batch identifier was built from, never a later admission |
| `Acknowledge.AcceptsNothing` | src/spool.rs:739-790 | An acknowledgement accepts nothing if and only if it sends no identifier |
| `Acknowledge.NothingAcknowledged` | src/spool.rs:739-762 | The current batch always accepts the acknowledgement that sends no identifier |
| `Acknowledge.BatchMovesOn` | src/spool.rs:718-738 | After an accepted acknowledgement the next batch has a new identifier if and only if an identifier was sent |
| `Legacy.EntriesByTime` | src/spool.rs:443-446 | All entries ordered by admission time and identifier |
| `Legacy.BuildLegacyBatch` | src/spool.rs:438-491 | An Ok batch is the longest fitting prefix by admission time and identifier with no gap or counted expiry outstanding; undamaged it is Ok exactly when the queue holds only records |
| `Promises.LegacyBatchCarries` | src/spool.rs:438-491 | A version 1 batch delivers the stored records unchanged, sooner ones first and before everything left out, named in this order, as many as fit 256 records and the limits |
| `Legacy.LegacyBatchIsUnique` | src/spool.rs:438-491 | A directory determines its version 1 batch and batch identifier |
| `Legacy.LegacyAdmissions` | src/spool.rs:809-835 | The exact occurrences of the accepted records, each once |
| `Legacy.ExamineLegacy` | src/spool.rs:637-678 | Produces a receipt for exactly the named occurrences if all named records are in the current batch, and refuses otherwise |
| `Promises.LegacyAcceptedMeans` | src/spool.rs:637-650 | A version 1 acknowledgement is of the current batch if and only if it names its identifier and sends only record ids the batch delivers |
| `Legacy.ReplayLegacy` | src/spool.rs:619-633 | A retained receipt answers the same record ids again, refuses others, and changes no entry, gap or item |
| `Promises.LegacyReplayIsReordering` | src/spool.rs:624-633 | A retained version 1 receipt answers exactly the acknowledgements that send its record ids in any order |
| `Legacy.AcceptNewLegacy` | src/spool.rs:634-695 | Accepted if and only if the history is unpruned, the queue holds records only and the record ids are of the one current batch; the queue and the history lose and gain exactly the named occurrences; with damaged files too, unless the lookup of the batch fails |
| `Legacy.RememberedBatch` | src/spool.rs:634-636 | A batch once acknowledged by version 1 still has its receipt unless the pruned flag is set |
| `Legacy.LegacyNothingAcknowledged` | src/spool.rs:637-678 | The current version 1 batch always accepts the acknowledgement that sends no record id |
| `Legacy.LegacyBatchMovesOn` | src/spool.rs:619-695 | After an accepted version 1 acknowledgement the next batch has a new identifier if and only if a record id was sent |
| `Recovery.LoadGaps` | src/spool.rs:1386-1451 | Every gap file passes every check, in any order, and the cache agrees with the directory |
| `Recovery.RecordLoads` | src/spool.rs:1152-1195 | A pending file of an unaltered directory reads back as the admitted record and passes every check |
| `Recovery.LoadPending` | src/spool.rs:1152-1289 | All pending files load, in any order; the one file a stop may leave behind its own gap goes to quarantine; fails exactly if it does not fit there |
| `Recovery.SequenceStateIsReadable` | src/spool.rs:1697-1726 | A sequence state with at most a million counted expiries stays below the size it is read back with |
| `Recovery.SequenceLoads` | src/spool.rs:1697-1726 | The stored sequence state of any run passes every check |
| `Recovery.RecoveredNext` | src/spool.rs:1317-1333 | The maximum over sequence state, entries and gaps is the number after the last one ever handed out |
| `Recovery.LoadSequence` | src/spool.rs:1290-1342 | None of the checks fails, and counts, totals, flag and next number agree with the disk |
| `Recovery.ReceiptLoads` | src/spool.rs:1480-1589 | Every receipt of a run passes every check, whichever were loaded before it |
| `Recovery.LoadReceipts` | src/spool.rs:1480-1595 | All receipts load, in any order, and the next receipt number is 0 or the highest sequence plus one |
| `Recovery.ApplyReceipts` | src/spool.rs:1596-1627 | Carrying out all receipts, in any order, leaves nothing accepted on disk and the queue unchanged |
| `Recovery.CountIsExplained` | src/spool.rs:1351-1370 | A count without pending file always has its gap file or a receipt for its gap, so recovery never refuses it |
| `Recovery.Rebuild` | src/spool.rs:1150-1380 | After any stop the directory becomes one explicit function of the directory found, the state agrees with it in every field and counter, and the queue is the one the stop left |
| `Recovery.RebuildIsDetermined` | src/spool.rs:1150-1380 | Two rebuilds of one directory, whatever order its files are listed in, give equal states, all fields included |
| `Recovery.Recover` | src/spool.rs:1132-1384 | An unaltered directory opens if and only if there is no orphan and quarantine has room for a shadowed file; the queue becomes the one found with due records expired, every step on the way leaves one of the two, and at most 1024 receipts stay |
| `Promises.OpensUnless` | src/spool.rs:1139-1289 | A directory opens unless an unfinished write is left, or a file behind its own gap does not fit quarantine |
| `Spools.Spool.Enqueue` | src/spool.rs:319-423 | The operation on the spool's own state, with the exact outcomes of Admit.Enqueue |
| `Spools.Spool.NextBatchV2` | src/spool.rs:493-496 | The batch of the queue after expiring what is due; empty if and only if nothing is pending |
| `Spools.Spool.NextBatch` | src/spool.rs:425-436 | The version 1 batch of the queue after expiring what is due, exactly when only records are left |
| `Spools.Spool.AcknowledgeV2` | src/spool.rs:697-807 | Malformed, replayed and new acknowledgements, each with its exact answer and effect; any acknowledgement of version 2 without repeated identifiers that the current batch or its receipt answers succeeds |
| `Spools.Spool.Acknowledge` | src/spool.rs:603-695 | As for version 2, with progress; and an acknowledgement of a batch ever acknowledged by version 1 changes no item, whatever was admitted since and whatever was damaged |
| `Spools.Spool.ExpireDue` | src/spool.rs:943-1020 | The operation on the spool's own state |
| `Spools.Spool.AlteredOutside` | src/spool.rs:1637-1670 | An alteration of a pending file keeps memory and directory in agreement, so every operation may follow it |
| `Spools.DamageKeepsSteady` | src/spool.rs:1637-1670 | Agreement between operations survives damage to any pending file |
| `Spools.Open` | src/spool.rs:263-317 | Opening a directory that was never altered from outside, with the exact condition under which it succeeds |
| `Spools.CutIsLegal` | src/spool.rs:1753-1774 | A stop after any durable step leaves a legal run to open from |
| `Spools.CrashRefinement` | src/spool.rs:1132-1384 | For an operation that takes the queue from v to v' in one step: a stop at any durable step, any number of stopped attempts to reopen under a clock that does not go back, and an opening leave v or v', expired as of that opening |
| `Spools.EnqueueRefines` | src/spool.rs:319-423 | The same for enqueue by its contract: the queue without or with the record, never anything else |
| `Spools.AcknowledgeRefines` | src/spool.rs:697-807 | The same for a version 2 acknowledgement: all it accepts is gone, or nothing |
| `Spools.LegacyAcknowledgeRefines` | src/spool.rs:603-695 | The same for a version 1 acknowledgement |
| `Spools.HousekeepingRefines` | src/spool.rs:869-905 | The same for replays and housekeeping: the stops leave no trace in the queue |
| `Spools.ExpiryRefines` | src/spool.rs:943-1020 | The same for expiry: the queue after the last opening does not depend on the stops at all |
| `Spools.OrphanRefused` | src/spool.rs:1139-1149 | A stop inside a write leaves a legal run, the queue as it was and an orphan |
| `Spools.OrphanStays` | src/spool.rs:1139-1149 | No step clears an orphan, so over any stretch of a run no directory on the way can be opened; that opening decides by it is in Recovery.Recover |
| `Spools.ExactReplay` | src/spool.rs:718-738 | An accepted version 2 acknowledgement sent again, whatever happened since, gives the identical result and changes no entry, gap or item, unless its receipt was pruned, for which 1024 others must have been written |
| `Spools.LegacyExactReplay` | src/spool.rs:619-633 | The same for version 1 |
| `Spools.LostAnswer` | src/spool.rs:771-806 | An acknowledgement whose receipt became durable is answered when sent again, also if the process stopped before answering |
| `Spools.IndexAgreement` | src/spool.rs:134-148 | Stable index and entries are inverse, byte totals are sums over the files, numbers are distinct and below the next one, the expired total counts distinct occurrences |
| `Spools.BatchSurvives` | src/spool.rs:498-601 | Housekeeping, and an expiry or reopening at which nothing is due, leave the batch and its identifier as they were |
| `Spools.DeferredIsPhysical` | src/spool.rs:536-544 | Writing the gap file of a counted expiry changes neither the item nor the queue nor which acknowledgements and receipts are accepted, and accepting the gap before or after removes the same occurrence |
| `Spools.RestIsAccepted` | src/spool.rs:718-762 | After an accepted acknowledgement, acknowledging something of the then current batch is accepted if and only if the first one sent an identifier and receipt numbers are left |
| `Spools.StaysRefused` | src/spool.rs:718-738 | After an acknowledgement that sent no identifier every other one with its batch identifier is refused, in every later state that retains the receipt |
| `Spools.LegacyRestIsRefused` | src/spool.rs:619-633 | After an accepted version 1 acknowledgement the batch keeps its identifier if and only if no record id was sent, and then every acknowledgement of a record of it is refused |
| `Spools.LegacyStaysRefused` | src/spool.rs:619-633 | The same for version 1 |
| `Spools.ReceiptMeansAcknowledged` | src/spool.rs:619-636 | While the history is unpruned, a version 1 batch identifier has a receipt if and only if version 1 acknowledged it at some time |
| `Spools.LegacyTakesEffect` | src/spool.rs:619-678 | A version 1 acknowledgement of records of the current batch removes exactly the items with the identifiers sent if and only if its identifier has no receipt, equivalently was never acknowledged by version 1, the history is unpruned and receipt numbers are left; otherwise the queue is unchanged |
| `Recurring.ReadmittedStays` | src/spool.rs:619-633 | Admit, acknowledge, admit again, acknowledge: the last answer is Ok and the record is still the queue and the current batch |
| `Recurring.Readmit` | src/spool.rs:319-423 | Carries out these operations on any open spool with an empty queue and room |
| `Recurring.OldReceiptRefuses` | src/spool.rs:624-650 | Acknowledge nothing of a record, admit a second one, acknowledge it alone, acknowledge the first: refused, and the first is still the queue and the current batch |
| `Recurring.BlockByEmpty` | src/spool.rs:603-695 | Carries out these operations on any open spool with an empty queue and room |
| `FileNames.RoundTrip` | src/spool.rs:394 | The zero-padded name of every number above 0 and every identifier parses back to them |
| `FileNames.ParseIsExact` | src/spool.rs:1916-1930 | Exactly the written names parse, and besides them only the form with a plus sign and 19 digits |
| `Migration.ListedOnce` | src/spool.rs:1196-1199 | A directory has one order by admission time and identifier, whatever order it is listed in |
| `Migration.List` | src/spool.rs:1196-1199 | Lists the directory sorted by admission time and identifier |
| `Migration.Pass` | src/spool.rs:1196-1261 | A pass stopped after any rewrite or rename keeps the final assignment and the sort keys; one that runs through reaches it, in place |
| `Migration.PassOver` | src/spool.rs:1196-1261 | A restart lists the directory afresh, sorts it and goes through it; the final assignment stays |
| `Migration.Migrate` | src/spool.rs:1196-1261 | Any number of interrupted restarts, each over a fresh listing, end with the assignment of one uninterrupted pass |
| `Migration.StopKeepsFinal` | src/spool.rs:1201-1214 | Whatever initial stretch has its numbers, the numbers still to come are the same |
| `Migration.AssignmentIsSound` | src/spool.rs:1211-1235 | Given numbers are kept, new ones ascend in pass order above all numbers in use, and no two files share one |
| `Migration.NumbersAscendInTime` | src/spool.rs:1196-1235 | Of two records without a number, the one admitted earlier, by identifier among equals, gets the lower one, and conversely |
| `Migration.NumbersFollow` | src/spool.rs:1211-1235 | New numbers follow one another from the one after the highest in use |
| `Migration.MigrationKeeps` | src/spool.rs:1211-1261 | Every file keeps its record and any number it has, and ends with a number and its final name |
| `Migration.StoredNextIgnored` | src/spool.rs:1211-1214 | The numbers handed out avoid those below the stored next number if and only if it is not above the first number of the pass |
| `Migration.StoredNextReused` | src/spool.rs:1211-1214 | With a stored next number of 10 a single old record gets number 1 again |
| `Credentials.LookupIs` | src/credentials.rs:89-93 | The search finds an entry exactly if there is one, and in a valid file the only one |
| `Credentials.VerifyIsExact` | src/credentials.rs:122-145 | A token is accepted if and only if the store can be read and has a credential with its identifier and secret that has begun and is neither expired, retired nor revoked |
| `Credentials.CredentialStore.Enrol` | src/credentials.rs:55-70 | The file after enrolment, the issued credential and every refusal |
| `Credentials.EnrolIsExact` | src/credentials.rs:55-70 | When an enrolment succeeds and which refusal it meets |
| `Credentials.AsciiLabel` | src/credentials.rs:420-426 | A label of visible characters is allowed if and only if it has 1 to 64 of them; none with a control character is |
| `Credentials.CredentialStore.Rotate` | src/credentials.rs:72-101 | The file after rotation, the issued credential and every refusal |
| `Credentials.RotateIsExact` | src/credentials.rs:72-101 | A rotation succeeds if and only if lifetime and overlap are allowed and a token of its target verifies at that instant; every refusal with its exact condition |
| `Credentials.RotatedIssues` | src/credentials.rs:95-101 | The issued secret verifies exactly during its lifetime and no other does; the new credential keeps the label and names its origin |
| `Credentials.CredentialStore.Revoke` | src/credentials.rs:103-120 | The file after revocation and every refusal |
| `Credentials.RevokedStops` | src/credentials.rs:103-120 | A revocation succeeds if and only if the credential is there; its token works as before until then and never again |
| `Credentials.OthersUnchanged` | src/credentials.rs:55-120 | A mutation leaves the entry of every credential it neither targets nor newly issues exactly as it was |
| `Credentials.TargetAfter` | src/credentials.rs:96-118 | The target stays, with only its overlap deadline replaced or its revocation moved earlier |
| `Credentials.GrowthIsExact` | src/credentials.rs:234-240 | A mutation lengthens the file by exactly an amount computed from the file and the mutation |
| `Credentials.SavedFileLoads` | src/credentials.rs:208-240 | A saved file loads again if and only if the old length plus what the mutation adds is within 1 MiB and, for an issued credential, the clock is below its maximum |
| `Credentials.LastInstantLocksOut` | src/credentials.rs:208-232 | With the clock at its maximum an enrolment succeeds and every later mutation and verification is refused |
| `Credentials.FullStoreLocksOut` | src/credentials.rs:208-240 | With 3318 credentials of the shortest form one more enrolment succeeds and every later mutation and verification is refused |
| `Credentials.EnrolledVerifies` | src/credentials.rs:122-145 | The issued secret verifies exactly during its lifetime and no other secret does |
| `Credentials.OthersVerifyAlike` | src/credentials.rs:122-145 | A token a mutation neither targets nor issues verifies as before if and only if the mutation was refused or leaves the file readable |
| `Credentials.RotatedOverlaps` | src/credentials.rs:343-348 | After a rotation the old secret verifies exactly until the new overlap, expiry or revocation, whichever is first, regardless of an earlier overlap |
| `Credentials.RotationExtends` | src/credentials.rs:96 | A second rotation makes the old secret work longer if and only if its deadline, capped by the expiry, lies after the earlier one and no revocation comes first |
| `Credentials.SecondRotationExtends` | src/credentials.rs:96 | Two rotations that extend an overlap from 1000 to 2500 milliseconds |
| `Credentials.RevokeRevokes` | src/credentials.rs:103-120 | A successful revocation revokes its target at the latest from its instant on |
| `Credentials.RevokedForever` | src/credentials.rs:110-118 | Once revoked at r, no sequence of mutations whatever makes a token of the credential verify at r or later |
| `Credentials.TakeKeeps` | src/credentials.rs:163-206 | Every step of every process keeps mutual exclusion, and a copy read under the lock stays equal to the file |
| `Credentials.Serialisable` | src/credentials.rs:163-206 | Every interleaving of any number of processes, stops included, equals the mutations run one after the other in lock order |
| `Credentials.RevokedEverywhere` | src/credentials.rs:122-145 | A revocation holds in every later state of every interleaving, without any condition on the identifiers drawn |

## Left out

- Recovery.Recover: requires a directory that was never altered from outside; recovering damaged
  pending files (`quarantine_recovered_pending`) is not modelled, since it may write a gap for an
  occurrence a receipt has already accepted and uses another notice identifier than the run-time path.
- Spools.Open: as Recovery.Recover; formats 2 and 3 are represented by `Migration` alone, and the
  refusal of ambiguous receipts of format 2 is not modelled.
- Recovery.RecordLoads: requires an unaltered directory, as Recovery.Recover.
- Recovery.LoadPending: requires an unaltered directory, as Recovery.Recover.
- Recovery.SequenceLoads: requires an unaltered directory, as Recovery.Recover.
- Recovery.LoadSequence: requires an unaltered directory, as Recovery.Recover.
- Recovery.CountIsExplained: requires an unaltered directory, as Recovery.Recover.
- Recovery.Rebuild: requires an unaltered directory, as Recovery.Recover.
- Acknowledge.AcceptNew: with damaged files it does not say which of them the lookup of the batch turned
  into gaps; the answer is exact for the queue after that lookup.
- Legacy.AcceptNewLegacy: with damaged files it does not say when the lookup of the batch fails; if the
  lookup succeeds the answer is exact.
- Migration.Pass: the errors for duplicate identities and existing destinations are covered only as
  stops.
- Damage to gap, receipt and sequence files, and pending files that vanish; these make recovery refuse
  or quarantine.
- Failed writes other than stops: the flag that blocks further writes after an input or output error.
- Threads: the state lock is released between snapshot and quarantine; operations are atomic here
  apart from stops. A single opener and an atomic rename are assumed.
- Wrong keys, real cryptography, canonical JSON bytes, base64 and UUID text.
- Parsing of acknowledgements and envelopes from bytes, beyond the uniqueness of keys.
- The counter of corrupt records after opening, which only `snapshot` reads.
- `snapshot` and `sync`, which only report and flush.
- HTTP routing, metrics, health, TLS, listeners, shutdown and the command line.
- File permissions, symbolic links, advisory lock mechanics and paths.
- The interoperability coordinator, scripts and packaging.
