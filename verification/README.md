# Verification of the EquiCloud server

This project models the server's stateful core in Dafny and proves what it promises.

- `StoreProtocol` is the optimistic-concurrency store: one user's partition, and tasks that read, compare and
  set, and retry. A run is any list of atomic actions, so every statement about runs is about every interleaving.
  `StoreHistory`, `StoreTheorems` and `QuotaBound` are its theorems, `QuotaWitness` and `RetryWitness` show that their
  bounds are exact.
- `Database` is the database service as an object. Its methods are the retry loops and the concurrent batch; each
  atomic step is an action of the protocol, so the theorems hold of the object. Between two awaits, other requests
  may take any steps. `Batch` says where a batch stands between two steps.
- `SyncTriage`, `SyncSpec`, `SyncResults` and `SyncHandler` are the sync request: what is accepted, what an answer
  promises, and the handler. `SyncPromises` says which uploads are refused, and what a later get finds of the others,
  of the request and the table alone. `Manifest` is the patching of the manifest in memory. `SyncRuns`, `SerialSyncs`
  and `UnseenOverwrites` go from one request to many.
- `Codec`, `KeyNames` and `DataRoutes` are the value codec, the key validator and the routes for single keys.
- `Settings` is the settings upsert, `AuthSecrets` the issue of secrets, `AuthCache` the token cache.
- `Migrations` and `MigrationRunner` are the migration protocol, `Comments` the comment stripper.
- `Metrics` is the cached user counts.

`Environment.Setting` says what surrounds a method: whether others run (`shared`), whether the database may fail
(`faulty`) and whether an applied conditional write may be reported as not applied (`lossy`). Schedules, clock
readings, failures and random secrets are chosen freely, so a contract holds for all of them.

Assumptions: a single-row conditional write, a read, a sum over one partition and a delete are atomic. The zstd
library is a parameter: `Codec.Sound` says that its encoder, where it succeeds, emits frames with the magic number
(section 3.1.1 of RFC 8878) that decode whenever the content fits, and `Codec.Monotone` that more capacity never
changes a success. The checksum and the key hash are arbitrary functions. Base64 and UTF-8 decoding of a token is
a parameter too. Different users have different hashed ids. Where a theorem needs limits, it says which:
`SyncSpec.SaneLimits` (at most `i32::MAX`).

Where the code and a comment disagree, the model follows the code: the comment on `strip_block_comments`
(`src/lib/migrations.rs:209-211`) says that an opener without an end leaves the rest of the input intact, while
the code returns the whole input, with the comments before it.

Some statements that one would like fail in general. Each has a witness and its exact condition: the quota
(`QuotaWitness.QuotaBoundIsReached`, `QuotaWitness.QuotaKeptExactly`), no overwrite of an unseen row
(`UnseenOverwrites.InterleavedSyncsOverwrite`, `DeleteHidesRow` and `OverwritesSeenExactly`), the round trip of a
stored value (`Codec.AmbiguityHappens`, `Codec.RoundTrip`), an answer for every accepted upload
(`SyncResults.LongUploadIsDropped`, `SyncResults.AnsweredIfKept`), and no access after an invalidation
(`AuthCache.VerificationOutlivesInvalidation`, `AuthCache.ClosedExactly`).

## Model

| member | source | states |
|---|---|---|
| QuotaBound.QuotaBoundHolds | src/lib/database.rs:683-773 | In every interleaving of quota-checked saves, at most `lanes` in flight, with separate sum and version reads, retries, lost replies, failures and deletes, a total that starts within the limit never exceeds `limit + (lanes - 1) * m`, `m` bounding the values that are saved; nothing is assumed of the sizes of the rows already stored |
| QuotaBound.SingleWriterKeepsQuota | src/lib/database.rs:715-723 | One writer at a time never passes the limit, whatever is deleted meanwhile |
| QuotaWitness.QuotaBoundIsReached | src/lib/database.rs:683-723 | The bound is attained: from any table with room for one value, any saves of that size on fresh valid keys can all pass the check before any is written, and then pass the limit by all values but one |
| QuotaWitness.QuotaKeptExactly | src/lib/database.rs:715-723 | The quota itself holds in every run exactly with one save at a time, or when nothing can be saved at all (`m` is 0 or the limit is not positive) |
| StoreHistory.InvRun | src/lib/database.rs:792-850 | Invariant of every run of plain and quota-checked saves: the table is the replay of its history, every write put down the row owed to the table of its moment, every failed attempt has a change of its key between its read and its compare-and-set |
| StoreTheorems.VersionsAreConsecutive | src/lib/database.rs:807-847 | In a delete-free epoch of a key the applied writes carry consecutive versions, one per write, writes whose reply was lost included |
| StoreTheorems.EpochStartsAtOne | src/lib/database.rs:808-817 | After a delete, or on a key that was never there, the versions are 1, 2, 3, … |
| StoreTheorems.ReturnedVersionsDiffer | src/lib/database.rs:824-847 | No version of a key is returned to two callers within an epoch; the later one gets the higher version |
| StoreTheorems.ReturnedRowIsCallers | src/lib/database.rs:807-847 | When a save returns a version, the row at that version held the caller's bytes, checksum and size, and the returned time stamp |
| StoreTheorems.CreationTimeKept | src/lib/database.rs:807-847 | While a key is not deleted, its row keeps the creation time that it had at the start; a row that was not there gets the time stamp of the first write, and keeps it |
| StoreTheorems.GivingUpHasFiveCauses | src/lib/database.rs:792-855 | Barring lost replies, a save gives up only if five changes of its key by others committed, one in each of five disjoint read-to-write windows of the call |
| StoreTheorems.FiveWritersSucceed | src/lib/database.rs:792-855 | Without deletes of the key and without lost replies, a key that at most five calls ever write starves none of them |
| RetryWitness.SixCallersCanStarveOne | src/lib/database.rs:792-855 | Five is exact: from any table, for any key, six calls without deletes or lost replies can make one of them give up |
| Database.DatabaseService.SaveDataKeyLwt | src/lib/database.rs:783-856 | The plain retry loop: a result is on record with the caller's payload; undisturbed, one write with the next version and nothing else changed; the state machine of the theorems above is what it runs |
| Database.DatabaseService.SaveWithQuota | src/lib/database.rs:683-779 | The quota-checked retry loop: undisturbed, it saves exactly when the total without the old value and with the new one is within the limit, and otherwise leaves the table alone |
| Database.DatabaseService.ReadBoth | src/lib/database.rs:684-713 | Sum and version are two reads in either order with others in between; only without others are they one snapshot |
| Database.DatabaseService.CompareAndSet | src/lib/database.rs:729-773 | One conditional write: applied it leaves the next version and the caller's row, not applied it leaves the table alone, and five refusals end the call |
| Database.DatabaseService.GetUserTotalSize | src/lib/database.rs:596-612 | The sum over the partition |
| Database.DatabaseService.GetDataManifest | src/lib/database.rs:343-363 | Every row once, without its value, in any order |
| Database.DatabaseService.GetDataKeys | src/lib/database.rs:414-469 | Each listed key is read once, in any order, with others in between: its decoded row at that moment is in the list, or it had none; an invalid key fails the whole call before anything is read, and otherwise only a database failure does |
| Database.DatabaseService.GetDataKey | src/lib/database.rs:386-412 | The row of a key with its value decoded |
| Database.DatabaseService.SaveDataKeysBatch | src/lib/database.rs:528-594 | The batch, up to sixteen tasks advanced in any order: one result per kept entry, each on record; with distinct keys and no other writer every order ends in the old table overlaid with the batch, one write per entry, and only a database failure makes it fail, which leaves every row old or overlaid |
| Database.DatabaseService.RunBatch | src/lib/database.rs:588-593 | The same for the prepared entries, and that the batch ends |
| Database.DatabaseService.Abandon | src/lib/database.rs:588-592 | When one task fails the others are dropped; statements already sent may still apply, at most one for each lane and each to the key of its entry |
| Batch.FinishKeepsAlone | src/lib/database.rs:565-593 | Confluence step: without other writers a task that ends adds exactly its own row and disturbs no other task |
| Batch.AloneApplies | src/lib/database.rs:803-847 | Without other writers and with distinct keys the first compare-and-set of every task applies |
| Batch.PrepareKeepsAll | src/lib/database.rs:539-563 | When every value is within its limit the filter keeps every entry, in order, each with its encoded value, its checksum and the length of its value |
| Batch.PreparedExactly | src/lib/database.rs:539-563 | The batch holds exactly the entries whose value has a 32-bit length and is within the limit for `dataStore/` keys or for others, encoded |
| Settings.UsersTable.SaveUserSettings | src/lib/database.rs:229-261 | Barring lost replies the upsert gives up only after at least five creations and four deletions of the row by others; without deletions it succeeds within two rounds; undisturbed in one, keeping the creation time of an existing row |
| Settings.UsersTable.Round | src/lib/database.rs:233-255 | A round in vain means that the row was created by others meanwhile, and, if it was there before, deleted first |
| AuthSecrets.CallsAgree | src/lib/database.rs:287-316 | Between two deletions of an account all successful calls return the one stored secret, lost replies included |
| AuthSecrets.AnswerStaysValid | src/lib/database.rs:287-316 | While the account is not deleted, a returned secret is the one in the table |
| AuthSecrets.VanishedMeansDeleted | src/lib/database.rs:308-315 | The error for a vanished row is raised only when the account was deleted between the insert and the read |
| AuthSecrets.AuthTable.GetOrCreate | src/lib/database.rs:287-316 | The call itself: its result is in the table at that moment; undisturbed it is the old secret if there was one and the candidate otherwise |
| DataRoutes.SaveDataKeyWithQuotaCheck | src/lib/database.rs:655-780 | Refused before anything is written exactly for a bad key, a value above the limit of its kind of key or above 32 bits; otherwise the quota-checked loop on the encoded value |
| DataRoutes.PutData | src/routes/v2/data.rs:119-205 | A put is refused exactly when something is wrong with it, the limits and the `dataStore/` prefix written out, with the first such thing as the reason, and then changes nothing; an admissible one is stored exactly when it fits the quota, and the answer has the new version and the checksum of the body |
| DataRoutes.GetData | src/routes/v2/data.rs:53-117 | A get answers from one row: not found, not modified when the condition is exactly the stored checksum, or the decoded value with checksum and version; it is refused exactly for a bad key or a switched-off `dataStore/` key |
| DataRoutes.DeleteData | src/routes/v2/data.rs:207-227 | A delete removes exactly that row |
| DataRoutes.AnswerExactly | src/routes/v2/data.rs:69-116 | Only the stored checksum as the condition saves a client the value; any other condition, absent, different or not text, brings the decoded value of an existing key |
| DataRoutes.PutReadsBack | src/routes/v2/data.rs:119-205 | Until the key is touched again, whatever else runs, a get with any condition but the saved checksum returns the bytes and checksum of the saved body at the returned version, and one with that checksum is not modified; for bodies of any length, the bytes fail to read back exactly in the ambiguous case of the codec, which needs a body that looks like a frame and could not be encoded, or when an encoded body is longer than the decompression cap |
| DataRoutes.DeleteStartsOver | src/lib/database.rs:508-515 | After a delete nothing is found until the next save, and that save starts at version 1 |
| Codec.RoundTrip | src/lib/utils.rs:34-110 | `decompress(compress(x)) == x`, compression on or off: for every `x` within the cap, bytes that start with the zstd magic included; for bytes of any length exactly unless they look like a frame, could not be encoded and one attempt with the whole cap turns them into something else, or are longer than the cap and stored encoded |
| Codec.CompressExactly | src/lib/utils.rs:34-66 | The stored form is the output of the encoder for bytes that start with the magic number, and for others when compression is on and the output is shorter; otherwise it is the value; only a lookalike may grow |
| Codec.DecodedExactly | src/lib/utils.rs:68-110 | Bytes without the magic number are read as they are; others are what the first successful attempt makes of them, the capacities starting at four times the stored length between 1024 and 65536 and doubling up to the cap |
| Codec.AmbiguityHappens | src/lib/utils.rs:47-58 | A library that meets every assumption can have such a value, and it reads back wrong |
| Codec.Decompress | src/lib/utils.rs:68-110 | The growing-buffer loop ends and returns the first success among the doubled capacities, or the bytes themselves |
| Codec.GrowingEqualsOneAttempt | src/lib/utils.rs:89-109 | The growing buffer returns what one attempt with the whole cap would, when success is monotone in the capacity |
| Codec.FrameDecodes | src/lib/utils.rs:89-109 | A frame of the encoder decodes from any starting buffer as long as its content is within the cap |
| KeyNames.AcceptedExactly | src/lib/utils.rs:112-138 | The validator accepts exactly the names of 1 to 256 bytes that are the slash-join of non-empty segments over the allowed characters, none starting with a dot or holding two dots in a row |
| KeyNames.ErrorsExactly | src/lib/utils.rs:112-138 | Which error: empty exactly for the empty name, too long exactly beyond 256 bytes, invalid characters exactly for the other names that are not such a join |
| KeyNames.SlashChecksFollow | src/lib/utils.rs:125-136 | The checks for a leading, a trailing and a double slash are implied by the segment check, and together imply that no segment is empty |
| KeyNames.PairsStayInSegments | src/lib/utils.rs:125-125 | Two dots are side by side in a name exactly when they are in one of its segments |
| KeyNames.SplitJoin | src/lib/utils.rs:131-133 | Splitting undoes joining of slash-free segments |
| KeyNames.JoinSplit | src/lib/utils.rs:131-133 | Joining undoes splitting |
| SyncTriage.AcceptedAreDistinct | src/routes/v2/sync.rs:147-155 | Accepted uploads have pairwise distinct keys, for any hash function |
| SyncTriage.AcceptedAreAcceptable | src/routes/v2/sync.rs:157-203 | Every accepted upload has a valid key that is not switched off, is within the limit of its kind of key, carries the checksum of its value, and is of no key that the client does not hold at the server version or later |
| SyncTriage.ClientMapExactly | src/routes/v2/sync.rs:97-106 | A key is in the client map exactly when some entry of the list has it, with version and checksum of the last such entry |
| SyncPromises.JudgedExactly | src/routes/v2/sync.rs:147-219 | An upload is refused for the first fault that it has in the order of the checks, and accepted, with the checksum of its value, exactly when it has none; faults are said of the request, the table and the limits, the `dataStore/` prefix and the last manifest entry for the key written out |
| SyncPromises.TriageExactly | src/routes/v2/sync.rs:143-219 | The whole loop: refusals and accepted uploads are those of the verdicts, each verdict taken at the stored total plus what the earlier accepted uploads add |
| SyncTriage.RunningIsExact | src/routes/v2/sync.rs:143-219 | The running size is the exact sum of the manifest overlaid with the accepted uploads, so never negative, and at most the limit once anything was accepted |
| SyncTriage.NothingIsLost | src/routes/v2/sync.rs:147-219 | Each upload ends up accepted or rejected, once |
| SyncHandler.TriageUploads | src/routes/v2/sync.rs:147-219 | The upload loop computes that triage |
| SyncHandler.SelectDownloads | src/routes/v2/sync.rs:108-120 | The filter computes the selection |
| SyncResults.SelectedKeys | src/routes/v2/sync.rs:108-120 | The selection lists the wanted manifest keys, once each |
| SyncSpec.MissingExactly | src/routes/v2/sync.rs:97-120 | A row is wanted exactly when it is not a switched-off `dataStore/` key and, unless the request has no uploads, the last manifest entry of the client for the key does not have its checksum at its version or a later one |
| SyncHandler.SendDown | src/routes/v2/sync.rs:108-141 | Each row that the client misses is read once: it comes down as it was at that moment, or it was gone; when the fetch fails, the errors name exactly these rows; alone, the downloads are exactly the rows that the client misses |
| SyncHandler.SaveUploads | src/routes/v2/sync.rs:222-256 | Results and manifest delta after either outcome of the batch; in every setting each result is true, the table having held that upload at that version; every accepted upload is answered once exactly when the batch failed or its filter dropped none |
| SyncHandler.DeltaSync | src/routes/v2/sync.rs:59-281 | The handler. In every setting: size checks; true upload results, which read back; refusals that are exactly the verdicts on the uploads, with failures to save behind them; downloads that were in the table when read, of exactly the keys that the client misses by its manifest; every upload answered once, uploaded or in error, exactly when the batch failed or dropped nothing. Alone: downloads are exact, the table is overlaid with the accepted uploads, and the patched manifest is the manifest of the new table without blocked keys |
| SyncPromises.UploadReadsBack | src/routes/v2/sync.rs:222-248 | An accepted upload reads back: from the write that its result reports, for as long as nothing touches the key, whatever else runs, a get finds the uploaded bytes, their checksum and the reported version |
| SyncPromises.HeldServes | src/lib/database.rs:528-594 | A row that holds an upload serves its bytes to every get, exactly unless the value is one of those that the codec cannot read back |
| SyncResults.FilterDropsNothing | src/lib/database.rs:539-563 | The batch filter drops nothing that the loop accepted, exactly when all accepted values have a 32-bit length |
| SyncResults.LongUploadIsDropped | src/lib/database.rs:543-559 | Under limits above `i32::MAX` a request exists whose upload the loop accepts and the filter drops, so that nothing answers it |
| SyncResults.AcceptableIsKeepable | src/lib/database.rs:539-563 | Limits of at most `i32::MAX` guarantee that |
| SyncResults.AnsweredIfKept | src/routes/v2/sync.rs:222-248 | A saved batch answers each accepted upload once exactly when its filter dropped none |
| SyncResults.ErrorsConserve | src/routes/v2/sync.rs:147-256 | All answers of a request match its uploads one to one exactly when the accepted uploads are answered one to one |
| SyncResults.PatchedIsCurrent | src/routes/v2/sync.rs:261-272 | Patching the old manifest with the results gives the manifest that the new table would give, without blocked keys |
| Manifest.ReplaceInPlace | src/routes/v2/sync.rs:261-266 | The in-place loop replaces what has an update and leaves the updates for new keys |
| Manifest.AppendNew | src/routes/v2/sync.rs:267-268 | Appending new keys in any order keeps keys unique and overlays them |
| Manifest.EnumeratesExactly | src/lib/database.rs:343-363 | A manifest stands for a table exactly when it has one entry for each row, with its version, checksum, size and time stamp, and no others |
| Manifest.Retain | src/routes/v2/sync.rs:270-272 | Blocked keys are dropped, nothing else |
| Manifest.PatchManifest | src/routes/v2/sync.rs:258-272 | Together: no key twice, and as a map the old manifest overlaid with the updates, without blocked keys |
| Manifest.ManifestTotal | src/routes/v2/sync.rs:143-145 | Adding up a manifest gives the stored total |
| SyncRuns.DownloadsCatchUp | src/routes/v2/sync.rs:108-141 | Once the client has stored the downloads it holds, for every unblocked key, the server's checksum at the server's version or a later one; duplicate manifest entries and requests without uploads included |
| SyncRuns.SyncCatchesUp | src/routes/v2/sync.rs:59-281 | After a successful batch, storing the results too brings the client up to the new table |
| SyncRuns.NextSyncIsQuiet | src/routes/v2/sync.rs:108-203 | A client that has caught up gets nothing down at its next sync with an upload, and none of its uploads is refused as too old |
| SyncRuns.PullBringsEverything | src/routes/v2/sync.rs:97-120 | A request without uploads brings down exactly all visible keys, whatever the client manifest says |
| SyncRuns.RunningIsStored | src/routes/v2/sync.rs:143-219 | After a successful batch with no other writer the running size is the stored total, which is within the limit when anything was accepted |
| SerialSyncs.ClientsNeverAhead | src/routes/v2/sync.rs:191-203 | In any serial run of syncs, failed batches included, and single saves, without deletes and lost replies, by many clients that record only what the server told them, client versions never exceed server versions, and equal versions mean equal checksums |
| SerialSyncs.NoUnseenOverwrite | src/routes/v2/sync.rs:191-203 | In such a run a sync overwrites a row only if its client held exactly that version and checksum |
| UnseenOverwrites.NeverAhead | src/routes/v2/sync.rs:191-203 | In every run, interleaved and with lost replies: while a key is not deleted, what a client recorded of it is never ahead of the table, and an equal version means the same row and that nothing happened to it |
| UnseenOverwrites.CheckSeesChanges | src/routes/v2/sync.rs:191-203 | In every run, an upload that passes the check is of a key that has not changed since its client recorded it, exactly when the key was not deleted in between |
| UnseenOverwrites.VersionTellsChanges | src/lib/database.rs:807-847 | In every run, while a key is not deleted, the version that a write gets is the checked one plus one exactly when nothing happened to the key between check and write |
| UnseenOverwrites.CasAppliesExactly | src/lib/database.rs:807-847 | No lost updates: in every run, while a key is not deleted, a conditional write takes effect exactly when nothing happened to the key since its version was read, and then leaves the payload at the next version with the old creation time; otherwise table and history stay |
| UnseenOverwrites.OverwritesSeenExactly | src/routes/v2/sync.rs:191-203 | In every run, an upload that passed the check overwrites exactly the row that its client recorded, if and only if the key was not deleted between record and check and not changed between check and write; in an epoch the returned version tells, being the held one plus one |
| UnseenOverwrites.DeleteHidesRow | src/lib/database.rs:808-817 | Behind a delete: a sync of a client from before the delete accepts an upload, and its save overwrites a row that the client never saw |
| UnseenOverwrites.InterleavedSyncsOverwrite | src/routes/v2/sync.rs:191-203 | Between check and write: two syncs accept an upload against one table, and the slower one overwrites the faster one with version + 2 |
| Migrations.RowsNeverChange | src/lib/migrations.rs:142-159 | Recorded rows never change and never go away |
| Migrations.RecordedWasExecuted | src/lib/migrations.rs:87-93 | Every recorded migration had been executed by the runner that recorded it |
| Migrations.FinishedRunnersAgree | src/lib/migrations.rs:71-96 | Two runners that both end well agree on the checksum of every file that they share |
| Migrations.RecordedNamesFormPrefix | src/lib/migrations.rs:60-96 | While all runners use one file list, the recorded names are always a prefix of it, and the prefix only grows |
| Migrations.RerunExecutesNothing | src/lib/migrations.rs:71-86 | After one runner ended well, a later runner over the same files executes none of them, whoever else runs, and only a crash can stop it |
| Migrations.NothingVanishes | src/lib/migrations.rs:181-184 | The error for a vanished bookkeeping row is never raised |
| Migrations.InvRun | src/lib/migrations.rs:60-186 | Invariant of every interleaving of runners, crashes and lost replies included: the files before a runner's position are recorded with its own checksums |
| MigrationRunner.Session.RunMigrations | src/lib/migrations.rs:57-103 | The loop: it succeeds exactly with every file done; alone, the missing files are executed and recorded in order, up to the first file whose row has another checksum |
| MigrationRunner.Session.RecordApplied | src/lib/migrations.rs:142-186 | Insert, and when that is refused let the row that is there decide |
| Comments.StrippingUndoesRendering | src/lib/migrations.rs:212-237 | Stripping a rendered document gives its plain text; every other string has a comment that does not close and is returned unchanged |
| Comments.ParseRender | src/lib/migrations.rs:212-237 | A rendered document is read back as itself |
| Comments.RenderParse | src/lib/migrations.rs:212-237 | A text in which every comment closes is the rendering of the document read from it |
| Comments.StripBlockComments | src/lib/migrations.rs:212-237 | The loop computes that |
| Metrics.OneRefresh | src/routes/metrics.rs:160-167 | At most one refresh is in flight |
| Metrics.StampsAreSpaced | src/routes/metrics.rs:169-182 | Stored stamps are at least 300 s apart, for arbitrary clock readings |
| Metrics.AnswersAreGenuine | src/routes/metrics.rs:148-189 | Every answer is a value that the cache has held, so the default or the result of a completed refresh; one served as fresh was less than 300 s old at the request's clock reading |
| Metrics.CountsCache.GetCachedUserCounts | src/routes/metrics.rs:148-189 | The method: alone, a fresh value is served, an expired one is replaced unless the lock is taken, and a failed refresh serves the old value |
| AuthCache.HitWasVerified | src/middleware/auth.rs:60-121 | A cache hit gives exactly the user that the token encodes: the token decodes to `secret:user`, that secret was the stored one at an earlier step, and the entry was inserted after that, less than 60 s before |
| AuthCache.MatchesExactly | src/middleware/auth.rs:101-121 | A token matches exactly when it decodes to a secret without a colon, a colon and a user, neither part empty, and the table holds that secret for that user |
| AuthCache.SplitsAtFirstColon | src/middleware/auth.rs:107-108 | A decoded token is split at its first colon, into exactly the two parts around it |
| AuthCache.RevokedStays | src/middleware/auth.rs:124-134 | Once a user has no secret, no live cache entry and no verification under way, its tokens open nothing until a new secret is issued |
| AuthCache.ClosedExactly | src/middleware/auth.rs:76-98 | The tokens of a user without a secret open nothing in any further run without a new secret, exactly when no verification is under way and no cache entry is younger than 60 s |
| AuthCache.VerificationOutlivesInvalidation | src/middleware/auth.rs:88-95 | A verification under way outlives the deletion and the eviction: it is let through, fills the cache again, and the next request with the token is a hit |
| AuthCache.DeletedTokensExpire | src/middleware/auth.rs:16-29 | Even without invalidation, once a user has no secret and no verification under way, none of its tokens is served from the cache 60 s later or after, until a new secret is issued |
| AuthCache.AuthService.AuthMiddleware | src/middleware/auth.rs:60-99 | The middleware: whoever it lets through brought, after an optional `Bearer `, a token that decodes to `secret:user` with the secret that the table held for the user; alone, exactly the users of entries younger than 60 s and of tokens with the stored secret get through; headers that are empty or longer than 256 bytes do not |
| AuthCache.AuthService.VerifyToken | src/middleware/auth.rs:101-121 | Whoever passes named the secret that the table held for the user; alone, a token is accepted exactly when it decodes to `secret:user` with the stored secret, and only then cached |
| AuthCache.AuthService.InvalidateUserCache | src/middleware/auth.rs:124-134 | Alone, exactly the entries of that user are evicted |
| AuthCache.AuthService.DeleteAccount | src/routes/v1/delete.rs:20-28 | After a deletion and the invalidation the user's tokens open nothing until a new secret is issued, exactly when no verification was under way; with other requests running, they open nothing when none was under way and no secret was issued meanwhile |

## Left out

- `src/main.rs`, `src/routes/health.rs`, `src/routes/v1/settings.rs` and the HTTP side of all handlers: routing, headers, status codes, JSON shapes, log text, rate and body limits, and the time-stamp check on v1 settings.
- `src/routes/v1/oauth/callback.rs`: network calls; only the secret that it asks for is modelled.
- The Scylla driver: paging of the manifest, Paxos, replication, time-outs, speculative execution and time stamps of deletes. A manifest is read in one step.
- Integer widths: versions, sizes and sums are unbounded where the code has `i64`, and the configured total limit is not cast.
- SaveDataKeyLwt: its exact effect is stated for a call that nothing disturbs; with others, failures or lost replies the contract says that a result is on record.
- SaveDataKeysBatch: the overlay is stated without other writers and without lost replies, since a save whose reply was lost writes twice; the results are on record in every setting.
- DeltaSync: exact downloads, the overlay and the agreement of the manifest are stated without other writers and without lost replies; true results, downloads that were in the table, conservation and the reasons for errors are stated in every setting.
- Abandon: a statement that was already sent applies before the failed batch returns, or never.
- ClientsNeverAhead: the steps of its runs are syncs and saves without lost replies; `UnseenOverwrites.NeverAhead` covers these and interleaved ones.
- NoUnseenOverwrite: likewise; `UnseenOverwrites.OverwritesSeenExactly` covers lost replies, interleaving and deletes.
- PutData: the exact outcome is stated for a request that nothing disturbs; with others the contract says that a stored body is on record, and the quota is the subject of `QuotaBound`.
- SaveUserSettings: the five creations and four deletions are counted for calls without lost replies.
- RunMigrations: the list of embedded files is taken as sorted; statements are executed or fail as a whole, so `--` comments, the one-statement check and the two statements that create the keyspace and the bookkeeping table are not modelled.
- InvalidateUserCache: the iteration over the cache is one step; capacity eviction may happen at any time.
- GetCachedUserCounts: the four count queries are one step with an arbitrary result.
- GetUserTotalSize: `get_user_size_and_key_size` and `save_data_key` are not modelled; no route uses them.
- Decompress: the output buffer is not an array; an attempt with a capacity is a function of the bytes and that capacity.
- Environment parsing, `hash_user_id`, SHA-256, `constant_time_eq` and the metrics token: library code or easy members.
