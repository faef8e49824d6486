# WatermelonDB core, modelled in Dafny

This project models the parts of WatermelonDB that decide what ends up in the local
database and what gets sent to SQLite:

- **Sync** (`sync_helpers.dfy`, `sync_apply.dfy`, `sync_push.dfy`, `sync_protocol.dfy`).
  It covers per-column conflict resolution (`resolveConflict`), the raw rewrites that
  create a record from a server raw or mark it as synced, and the rules for applying a
  pulled change set to a store of records. It also covers the push snapshot, the commit
  that marks pushed records as synced, and the two-phase `synchronize` protocol, with the
  server and the other tasks that run between its steps as parameters.
- **Database** (`database.dfy`). It covers the `_ensureInAction` guard and `batch`:
  classifying prepared records into create/update operations, clearing their
  pending-update flags, calling the adapter, and the notifications that follow. Records
  are objects referenced by identity, so a record passed twice is one object: clearing
  its flag at the first entry is seen at the second.
- **SQLite query encoder** (`encode_query.dfy`). This is the serialiser from a query
  description to SQL text. `encodeName` and `encodeValue` are parameters.
- **Matcher operators** (`matcher_operators.dfy`). These are the in-memory comparison
  operators used to decide whether a record matches a query, with the JavaScript loose
  equality and relational coercions they rely on.
- **Android driver** (`database_driver.dfy`). It covers the schema-version decision with
  Kotlin `Int` wrap-around, and the `cachedRecords` list, which records the ids whose rows
  JavaScript already holds. That list is kept by `find`, `cachedQuery`, `batch`,
  `unsafeResetDatabase` and `migrate` over an abstract table store.

Shared pieces:

- `values.dfy` has the JavaScript value union and raw records. Reading a missing property
  gives `undefined`.
- `js_strings.dfy` has `String.prototype.split` on one character, with its round trips
  against `join`.
- `wrappers.dfy` has `Result`, `Outcome` and `Option`.

Exceptions thrown by the source (`invariant`, `require`, a `TypeError` from `split`)
become `Failure`/`Fail` values. So do the rejections of the two server calls, of saving
`lastPulledAt`, of `fetchLocalChanges` and of `markLocalChangesAsSynced`. Calls into code outside the model
become function-valued parameters:

- the storage adapter;
- `pullChanges` and `pushChanges`;
- what other tasks do at each `yield`;
- `likeToRegexp`;
- `encodeName` and `encodeValue`;
- the SQL engine behind a cursor or a transaction.

The rules for applying remote changes and for marking local changes as synced follow the
design comment in `dist/sync/index.js`. The implementation file that carries them out is
not part of this model:

- Inserting a record that already exists updates it.
- Inserting a locally deleted record un-deletes it (marks it synced) and then updates it.
- Updating a synced record takes the server's version of every column it sends.
- Updating a locally updated record is a conflict. The server's version is taken, then
  the columns listed in `_changed` are written back from the local record, and the
  record stays marked as updated (client wins per column).
- Updating a locally deleted record is ignored.
- Updating a missing record creates it.
- Destroying an already deleted record is ignored.
- Destroying any other record removes it.
- Entries are applied in order: inserts, then updates, then destroys.
- A pushed record is marked synced only if its raw is still exactly what the fetch saw.

The design comment (`dist/sync/index.js:128-129`) asks that a record changed locally after
the fetch is not marked as synced, because its new changes still need pushing. This is
proved about the rule above as `SyncPush.NoLostUpdate`: a column edited after the
snapshot stays marked as changed.

The apply step of `synchronize` is an action, not a transaction. The remote changes are
committed first, and saving the new `lastPulledAt` can still fail afterwards. The model
keeps that half-applied state, and `SyncProtocol.RetryAfterTimestampNotSaved` shows that
the next sync, asking for the same changes again, arrives at the same records.

## Model

| member | source | states |
|---|---|---|
| DatabaseCore.EnsureInAction | dist/Database/index.js:133-136 | A write is refused exactly when actions are enabled and no action is running. With actions disabled it always passes. |
| DatabaseCore.EnterAction | dist/Database/index.js:96-99 | Inside an action the guard passes, and the `actionsEnabled` option is unchanged. |
| DatabaseCore.WritesAllowedInAction | dist/Database/index.js:62-99 | A `batch` run as the work of an action never fails the guard, and succeeds exactly when every entry is batchable and the adapter accepts. The same `batch` outside an action, with actions enabled, is refused before any record changes. |
| DatabaseCore.BuildOperations | dist/Database/index.js:65-75 | Entry `i` is judged on its object's state at that moment: batchable when the object is new, or still has a prepared update that no earlier entry for the same object has cleared. All entries batchable: one operation per entry, in order, an update exactly when the update is still pending, and every object named has its flag cleared. Otherwise: it fails at the first unbatchable entry, and exactly the objects of the earlier entries are cleared. |
| DatabaseCore.Batch | dist/Database/index.js:62-88 | The guard fails: nothing happens. The adapter is called exactly when the guard passes and every entry is batchable at its turn. Once the adapter is called, the flags stay cleared whether or not it accepts. An entry that cannot be batched aborts before the adapter, with the earlier entries' flags cleared. The batch succeeds exactly when the adapter accepts, and only then is one created/updated notification fired per entry, in order. |
| DatabaseCore.DistinctRefsBatchable | dist/Database/index.js:65-75 | With no object passed twice, each entry is judged on its object's state before the call, and it is an update exactly when it had a prepared update. |
| DatabaseCore.SameRecordTwiceIsRefused | dist/Database/index.js:65-72 | A committed record with a prepared update passed twice: the first entry clears the shared flag, so the second is refused with `CannotBatch(1)`, the adapter is never called, and the flag stays cleared. |
| JsStrings.Split | dist/sync/impl/helpers.js:38 | `split(',')` returns at least one part, and no part contains the separator. |
| JsStrings.JoinSplit | dist/sync/impl/helpers.js:38 | Joining the parts of a split gives back the string. |
| JsStrings.SplitJoin | dist/sync/impl/helpers.js:38 | Splitting a join of separator-free parts gives back the parts. |
| JsStrings.SplitWithoutSeparator | dist/sync/impl/helpers.js:38 | A string without the separator splits into itself alone. |
| SyncHelpers.Overlay | dist/sync/impl/helpers.js:38-40 | Every listed column is taken from local. Every other column keeps its value. The key set grows by the listed columns. |
| SyncHelpers.Spread | dist/sync/impl/helpers.js:31-36 | `id`, `_status` and `_changed` come from local. Other columns come from remote when remote has them, else from local. |
| SyncHelpers.Merged | dist/sync/impl/helpers.js:31-40 | The spread with the locally changed columns written back from local. |
| SyncHelpers.ResolveConflict | dist/sync/impl/helpers.js:23-49 | A locally deleted raw is returned as is. Otherwise it fails exactly when `_changed` is not a string. On success every column equals the per-column client-wins reference, and a locally created record comes back synced. |
| SyncHelpers.MergedFollowsReference | dist/sync/impl/helpers.js:31-46 | The spread-and-overwrite implementation agrees key by key with the column-by-column reference definition. |
| SyncHelpers.ResolveConflictColumns | dist/sync/impl/helpers.js:20-46 | Locally changed columns keep the local value. Unchanged columns take the server value when it has one. `id` and `_changed` are local. `_status` is local, except created becomes synced. |
| SyncHelpers.ResolveConflictIdempotent | dist/sync/impl/helpers.js:23-49 | Resolving the result again against the same remote raw gives the same result. |
| SyncHelpers.ReferenceIsFixpoint | dist/sync/impl/helpers.js:31-46 | A raw that already follows the reference merge is a fixpoint of a second merge against the same remote. |
| SyncHelpers.ClientWinsOnChangedColumn | dist/sync/impl/helpers.js:20-40 | With `_changed = 'name'`, the local name survives, the server's age wins and the status stays updated. |
| SyncHelpers.PrepareCreateFromRaw | dist/sync/impl/helpers.js:55-62 | The new raw is synced with an empty `_changed` (which splits to `['']`). Every other column is the server's. |
| SyncHelpers.PrepareUpdateFromRaw | dist/sync/impl/helpers.js:64-69 | The merged raw is deleted exactly when the local one was, is never created, and keeps the local `_changed`. |
| SyncHelpers.PrepareMarkAsSynced | dist/sync/impl/helpers.js:71-80 | Only `_status` (to synced) and `_changed` (to empty) change. |
| SyncHelpers.EnsureActionsEnabled | dist/sync/impl/helpers.js:82-84 | Fails exactly when the database has actions disabled. |
| SyncApply.Ops | dist/sync/index.js:98-113 | A change set yields one entry per created raw, updated raw and deleted id, in that order: the inserts in list order, then the updates, then the destroys, each entry carrying its own raw or id. |
| SyncApply.ApplyOne | dist/sync/index.js:98-113 | The per-record rules of applying remote changes (the insert, update and destroy cases listed above). A merge that fails can only fail on a non-string `_changed`. |
| SyncApply.SyncedUpdateTakesServer | dist/sync/index.js:103 | Updating a synced record with no local changes succeeds, and the record stays synced. Every column the server sends is taken from the server, except `id`, `_status`, `_changed` and the empty name (`''.split(',')` lists that name as changed). Columns only the local record has are kept. |
| SyncApply.UndeleteLemma | dist/sync/index.js:101 | Un-deleting and then updating leaves a synced record carrying every server column. |
| SyncApply.ApplyOp | dist/sync/index.js:98-113 | Applying one entry changes only the record with that entry's id. |
| SyncApply.ApplyOps | dist/sync/index.js:98-113 | Records no entry mentions are unchanged, and a failure is a non-string `_changed`. |
| SyncApply.ApplyOpsPointwise | dist/sync/index.js:98-113 | With distinct ids, applying the entries in sequence equals applying each entry's rule to its own record independently, and succeeds exactly when every rule does. |
| SyncApply.ResolveCreatedFromSelf | dist/sync/index.js:133-135 | Merging a record just created from a raw with that same raw changes no column a read can see. |
| SyncApply.ApplyOneIdempotent | dist/sync/index.js:133-135 | Re-applying an entry to its own result succeeds and changes nothing a read can see. |
| SyncApply.ApplyOpsIdempotent | dist/sync/index.js:133-135 | Re-applying entries with distinct ids succeeds and leaves the same ids with indistinguishable records. |
| SyncApply.ApplyRemoteChangesIdempotent | dist/sync/index.js:133-135 | If a change set was applied but `lastPulledAt` was not saved, applying the same changes again reaches the same state. |
| SyncPush.Strip | dist/sync/index.js:118 | Pushed raws lack `_status` and `_changed`. Every other column is kept. |
| SyncPush.FetchLocalChanges | dist/sync/index.js:116-118 | Created, updated and deleted are exactly the records with that status. Created and updated records are stripped. The full raws are kept for the later comparison. |
| SyncPush.MarkLocalChangesAsSynced | dist/sync/index.js:124-129 | Pushed deletions are destroyed. A pushed record still identical to its snapshot is marked synced. Any other record is left alone. |
| SyncPush.NoLostUpdate | dist/sync/index.js:128-129 | A column edited after the snapshot (in the live `_changed`, not the pushed one) is still marked changed after the commit, with its status unchanged. |
| SyncPush.FetchThenMarkLeavesNothingToPush | dist/sync/index.js:124-127 | With no edits between fetch and commit, a fetch after the commit finds nothing to push. |
| SyncApply.ApplyRemoteChanges | dist/sync/index.js:96-113 | Records that no created, updated or deleted entry mentions are unchanged, and the only failure is a non-string `_changed`. |
| SyncProtocol.ApplyPhase | dist/sync/index.js:40-54 | A moved `lastPulledAt` aborts with a concurrency error and changes nothing. A failed apply changes nothing. A successful apply is kept. The new timestamp is then saved, or, when saving fails, the run fails with the changes applied and `lastPulledAt` unchanged. |
| SyncProtocol.Synchronize | dist/sync/index.js:24-64 | Disabled actions mean no pull. The pull receives the stored timestamp. A rejected pull writes nothing. A concurrent sync aborts before applying. A rejected apply leaves the replica as other tasks left it during the pull. A failed timestamp save ends the run with the changes applied, the old `lastPulledAt` and no push. A rejected read of local changes ends the run after the apply, with no push. Push happens only after a successful apply, save and read. It receives the records the read saw and the server's timestamp. The sync succeeds exactly when both the push and the marking succeed. A passing run leaves the replica as it was at the marking, with the records the read saw marked synced when they are still exactly as read. A rejected push marks nothing as synced. A rejected marking after a successful push leaves the records unmarked. |
| SyncProtocol.NoLostUpdateThroughSync | dist/sync/index.js:127-129 | After a passing sync, a column that other code marked as changed between the read of local changes and the marking is still listed as changed, and the record keeps its status. |
| SyncProtocol.MarkFailedPushesAgain | dist/sync/index.js:137-139 | When the marking is rejected and nothing else runs, the next read of local changes finds exactly what was pushed. |
| SyncProtocol.QuietSyncCompletes | dist/sync/index.js:85-86 | With no concurrent activity, a successful sync ends at the server's timestamp with nothing left to push. |
| SyncProtocol.ApplyPhaseIsGuarded | dist/sync/index.js:40-48 | The apply step's writes run as the work of an action, so no run of `synchronize` is refused by the action guard. |
| SyncProtocol.RetryAfterTimestampNotSaved | dist/sync/index.js:132-135 | After a run whose timestamp save failed, `lastPulledAt` is unchanged, so the next pull asks for the same changes. Applying that change set again (each id once) succeeds and leaves records no read can tell from this run's. |
| EncodeQuery.JoinFold | dist/adapters/sqlite/encodeQuery/index.js:19-23 | The reduce yields `''` exactly when the accumulator and every part are empty. |
| EncodeQuery.MapJoin | dist/adapters/sqlite/encodeQuery/index.js:19-23 | An empty list joins to `''`. The join is `''` exactly when every mapped part is. |
| EncodeQuery.JoinFoldIsJoin | dist/adapters/sqlite/encodeQuery/index.js:19-23 | Folding non-empty parts onto a non-empty accumulator puts the joiner before each part: the accumulator, the joiner, then the join of the parts. |
| EncodeQuery.MapJoinIsJoin | dist/adapters/sqlite/encodeQuery/index.js:19-23 | With no empty part, `mapJoin` equals `Array.prototype.join`. |
| EncodeQuery.MapConcat | dist/adapters/sqlite/encodeQuery/index.js:25-29 | An empty list concatenates to `''`. |
| EncodeQuery.MapConcatIsJoin | dist/adapters/sqlite/encodeQuery/index.js:25-29 | The left fold of `mapConcat` equals `Array.prototype.join` with an empty joiner. |
| EncodeQuery.EncodeValues | dist/adapters/sqlite/encodeQuery/index.js:31-33 | A value list encodes as the parenthesised, comma-joined encoded values. |
| EncodeQuery.GetComparisonRight | dist/adapters/sqlite/encodeQuery/index.js:35-43 | A list encodes as a value list, and a column as `table.column`. Any other defined value encodes through `encodeValue`, and a missing value encodes as `null`. |
| EncodeQuery.Keyword | dist/adapters/sqlite/encodeQuery/index.js:43-60 | Every operator has a non-empty keyword. `is` is exactly `eq`, and `is not` exactly `notEq`, so that NULL operands compare correctly. |
| EncodeQuery.KeywordsDistinct | dist/adapters/sqlite/encodeQuery/index.js:47-60 | Two operators share a keyword exactly when they are equal, or are `gt` and `weakGt` (a value comparison). |
| EncodeQuery.EncodeComparison | dist/adapters/sqlite/encodeQuery/index.js:62-71 | The comparison is empty exactly for `between` without a value list. |
| EncodeQuery.BetweenEncoding | dist/adapters/sqlite/encodeQuery/index.js:62-68 | `between` with values is `table.left between v0 and v1`, with missing bounds encoded as `undefined`. Without values the comparison is empty, leaving `table.left `. |
| EncodeQuery.EqualityKeywords | dist/adapters/sqlite/encodeQuery/index.js:43-71 | Any other operator (not a column `weakGt`) is `table.left <keyword> <right operand>`. `eq` and `notEq` against a value are `table.left is v` and `table.left is not v`, with a missing value encoded as `null`. |
| EncodeQuery.EncodeSimpleCondition | dist/adapters/sqlite/encodeQuery/index.js:92 | A plain condition is never empty. |
| EncodeQuery.EncodeWhereCondition | dist/adapters/sqlite/encodeQuery/index.js:85-93 | A condition, including the rewritten `weakGt`, is never empty. |
| EncodeQuery.EncodeWhere | dist/adapters/sqlite/encodeQuery/index.js:73-83 | No where clause encodes as the empty string. |
| EncodeQuery.EncodeWheres | dist/adapters/sqlite/encodeQuery/index.js:95-101 | The conditions of a group are encoded one by one, in order. |
| EncodeQuery.EncodeAndOr | dist/adapters/sqlite/encodeQuery/index.js:95-101 | A group encodes to `''` exactly when it has no conditions. |
| EncodeQuery.EncodeOn | dist/adapters/sqlite/encodeQuery/index.js:103-109 | An `on` condition is never empty. |
| EncodeQuery.EncodeOns | dist/adapters/sqlite/encodeQuery/index.js:115 | The `on` conditions are encoded one by one, in order. |
| EncodeQuery.WhereClause | dist/adapters/sqlite/encodeQuery/index.js:117-122 | The clause is empty exactly when both the join and where parts are, and otherwise opens with ` where `. |
| EncodeQuery.EncodeConditions | dist/adapters/sqlite/encodeQuery/index.js:113-123 | The conditions are empty exactly when there are no `where` and no `on` conditions, and otherwise open with ` where `. |
| EncodeQuery.AndOrIsJoin | dist/adapters/sqlite/encodeQuery/index.js:95-101 | An `and`/`or` group is the parenthesised join of its members with ` and `/` or `. An empty group is `()`. |
| EncodeQuery.WeakGtColumnIsExpansion | dist/adapters/sqlite/encodeQuery/index.js:85-90 | `weakGt` against a column encodes exactly as `or(gt(column), and(left is not null, column is null))`. |
| EncodeQuery.OneOfEncoding | dist/adapters/sqlite/encodeQuery/index.js:31-71 | `oneOf` encodes as `table.left in (v1, v2, ...)`. |
| EncodeQuery.ConditionsAreOneConjunction | dist/adapters/sqlite/encodeQuery/index.js:113-123 | The where clause is absent exactly when there are no conditions. Otherwise it is ` where ` and the `on` conditions followed by the where conditions as one ` and `-joined list. |
| EncodeQuery.EncodeMethod | dist/adapters/sqlite/encodeQuery/index.js:127-133 | The select opens with `select ` (with `select count(` in count mode) and ends with ` from ` and the table. |
| EncodeQuery.EncodeAssociation | dist/adapters/sqlite/encodeQuery/index.js:135-139 | Each association clause opens with ` join <table> on <table>`. For belongs_to it ends by equating the joined table's `id` with the main table's key column. For has_many it ends by equating the joined table's foreign key with the main table's `id`. |
| EncodeQuery.EncodeJoin | dist/adapters/sqlite/encodeQuery/index.js:141-143 | The join part is the association clauses concatenated in order, and `''` when there are none. |
| EncodeQuery.EncodeQuery | dist/adapters/sqlite/encodeQuery/index.js:145-157 | The SQL opens with the select clause, made `distinct` exactly when the query needs it. |
| EncodeQuery.MethodDistinctPrefix | dist/adapters/sqlite/encodeQuery/index.js:127-133 | The select (or count) opens with `distinct` exactly when asked to. |
| EncodeQuery.ToManyJoinsAreNeedsDistinct | dist/adapters/sqlite/encodeQuery/index.js:150-154 | The has-many check over the joined associations holds exactly when there is an `on` condition and some association is has-many. |
| EncodeQuery.DistinctIffToManyJoin | dist/adapters/sqlite/encodeQuery/index.js:145-157 | Given quoted names, the query is `select distinct` (or `count(distinct`) exactly when it has an `on` condition and a has-many association. |
| EncodeQuery.JoinClausesInOrder | dist/adapters/sqlite/encodeQuery/index.js:141-143 | Each association adds its own join clause, in order. |
| EncodeQuery.NoOnConditionsNoJoins | dist/adapters/sqlite/encodeQuery/index.js:150-155 | Without `on` conditions no association is joined, and the query is the plain select and its conditions. |
| MatcherOperators.Between | dist/observation/encodeMatcher/operators.js:17-19 | A missing bound or an undefined left operand never matches. |
| MatcherOperators.BetweenIsClosedInterval | dist/observation/encodeMatcher/operators.js:17-19 | On numbers, `between` is inclusive at both bounds. |
| MatcherOperators.BetweenCoercesNull | dist/observation/encodeMatcher/operators.js:17-19 | `between` has no null guard: a null left operand is compared as 0. |
| MatcherOperators.RawFieldEquals | dist/observation/encodeMatcher/operators.js:21-23 | Loose equality is reflexive, treats null and undefined as equal to each other and to nothing else, and compares strings and numbers by value. |
| MatcherOperators.EqSymmetric | dist/observation/encodeMatcher/operators.js:21-23 | `eq` and `notEq` are symmetric. |
| MatcherOperators.NotEq | dist/observation/encodeMatcher/operators.js:55 | `notEq` is false on equal operands and on any two nullish operands, and is `!=` on numbers. |
| MatcherOperators.NoNullComparisons | dist/observation/encodeMatcher/operators.js:27-36 | False when either operand is null or undefined. Otherwise the wrapped operator. |
| MatcherOperators.Gt | dist/observation/encodeMatcher/operators.js:56 | False on nullish operands and on a string against a non-string. `>` on numbers. Lexicographic on strings. |
| MatcherOperators.Gte | dist/observation/encodeMatcher/operators.js:57 | The same, for `>=`. |
| MatcherOperators.Lt | dist/observation/encodeMatcher/operators.js:59 | The same, for `<`. |
| MatcherOperators.Lte | dist/observation/encodeMatcher/operators.js:60 | The same, for `<=`. |
| MatcherOperators.GtMirrorsLt | dist/observation/encodeMatcher/operators.js:56-60 | `gt(a, b)` is `lt(b, a)`, and `gte(a, b)` is `lte(b, a)`. |
| MatcherOperators.LtIsStrictOrder | dist/observation/encodeMatcher/operators.js:59 | `lt` is irreflexive and transitive. |
| MatcherOperators.GteIsGtOrEqual | dist/observation/encodeMatcher/operators.js:56-57 | `gte` is `gt` or loosely equal, for non-nullish operands. |
| MatcherOperators.WeakGt | dist/observation/encodeMatcher/operators.js:39-41 | True for non-null against null. Equal to `gt` when both are non-null. False for an undefined left operand. For a null left operand, true only against a negative number. |
| MatcherOperators.HandleLikeValue | dist/observation/encodeMatcher/operators.js:43-45 | A string passes through; anything else becomes the default. |
| MatcherOperators.Like | dist/observation/encodeMatcher/operators.js:47-50 | A non-string left operand is matched as the empty string `''`. |
| MatcherOperators.OneOf | dist/observation/encodeMatcher/operators.js:61 | True exactly when some listed value is the left value. |
| MatcherOperators.NotIn | dist/observation/encodeMatcher/operators.js:62 | False for a nullish left operand. Otherwise the negation of `oneOf`. |
| DatabaseDriver.Sub32 | native/android/src/main/java/com/nozbe/watermelondb/DatabaseDriver.kt:204 | Kotlin `Int` subtraction: exact when in range, wrapping by 2^32 below the minimum and above the maximum. |
| DatabaseDriver.IsCompatible | native/android/src/main/java/com/nozbe/watermelondb/DatabaseDriver.kt:198-212 | Compatible exactly on equal versions. A migration from the stored version exactly when it is positive and below the schema version (or the schema version is `Int.MIN_VALUE`). Setup otherwise. |
| DatabaseDriver.MigrationRangeForPositiveVersions | native/android/src/main/java/com/nozbe/watermelondb/DatabaseDriver.kt:198-212 | For a positive schema version, migration is exactly `1 <= db < schema`. Setup is exactly `db <= 0` or `db > schema`. |
| DatabaseDriver.MinVersionWraps | native/android/src/main/java/com/nozbe/watermelondb/DatabaseDriver.kt:204 | At `Int.MIN_VALUE` the range wraps, and every positive database version needs a migration. |
| DatabaseDriver.Open | native/android/src/main/java/com/nozbe/watermelondb/DatabaseDriver.kt:42-46 | A freshly opened driver has nothing cached. |
| DatabaseDriver.MarkAsCached | native/android/src/main/java/com/nozbe/watermelondb/DatabaseDriver.kt:166-169 | Appends the id, adding one more occurrence even when it is already there. |
| DatabaseDriver.IsCached | native/android/src/main/java/com/nozbe/watermelondb/DatabaseDriver.kt:171 | An id is cached exactly when the list holds at least one occurrence of it. |
| DatabaseDriver.MarkNewKeepsNoDuplicates | native/android/src/main/java/com/nozbe/watermelondb/DatabaseDriver.kt:166-171 | Caching an id not yet cached keeps the list duplicate-free and makes it cached. |
| DatabaseDriver.OpenWithVersion | native/android/src/main/java/com/nozbe/watermelondb/DatabaseDriver.kt:23-31 | Succeeds exactly when the stored version equals the schema version. Otherwise it is `SchemaNeededError` or `MigrationNeededError(stored version)`. |
| DatabaseDriver.UnsafeResetDatabase | native/android/src/main/java/com/nozbe/watermelondb/DatabaseDriver.kt:157-162 | The cache is empty. The version is the schema's. The schema's tables exist and are empty. |
| DatabaseDriver.OpenWithSchema | native/android/src/main/java/com/nozbe/watermelondb/DatabaseDriver.kt:33-35 | Opening with a schema leaves an empty cache at the schema's version. |
| DatabaseDriver.Migrate | native/android/src/main/java/com/nozbe/watermelondb/DatabaseDriver.kt:180-190 | Refused unless the stored version is the migration's `from`. On success the version is `to`, the tables are the migrated ones and the cache is unchanged. |
| DatabaseDriver.OpenWithMigrations | native/android/src/main/java/com/nozbe/watermelondb/DatabaseDriver.kt:37-40 | A successful migration on open leaves an empty cache at version `to`. |
| DatabaseDriver.ResetThenOpenIsCompatible | native/android/src/main/java/com/nozbe/watermelondb/DatabaseDriver.kt:157-178 | A database set up from a schema opens with that schema's version. |
| DatabaseDriver.MigrateThenOpenIsCompatible | native/android/src/main/java/com/nozbe/watermelondb/DatabaseDriver.kt:180-190 | A database migrated to `to` opens with version `to`. |
| DatabaseDriver.Find | native/android/src/main/java/com/nozbe/watermelondb/DatabaseDriver.kt:48-62 | A cached id is returned bare without a query. A missing row gives null and leaves the cache unchanged. A found row is returned and its id cached. |
| DatabaseDriver.FindTwiceHitsCache | native/android/src/main/java/com/nozbe/watermelondb/DatabaseDriver.kt:48-62 | A row found once is answered with its bare id the next time. |
| DatabaseDriver.FindKeepsNoDuplicates | native/android/src/main/java/com/nozbe/watermelondb/DatabaseDriver.kt:48-62 | `find` never caches an id twice. |
| DatabaseDriver.CachedQuery | native/android/src/main/java/com/nozbe/watermelondb/DatabaseDriver.kt:64-81 | Rows without an `id` column (or no rows) give nothing. Otherwise each row gives a bare id when its id was cached before or seen in an earlier row, and the row itself otherwise. The cache grows by exactly the ids seen, keeping its old prefix and staying duplicate-free. |
| DatabaseDriver.NewIds | native/android/src/main/java/com/nozbe/watermelondb/DatabaseDriver.kt:138-141 | Exactly the ids of the create operations. |
| DatabaseDriver.RemovedIds | native/android/src/main/java/com/nozbe/watermelondb/DatabaseDriver.kt:142-149 | Exactly the ids of the mark-as-deleted and destroy operations. |
| DatabaseDriver.RemoveFirst | native/android/src/main/java/com/nozbe/watermelondb/DatabaseDriver.kt:154 | Removes one occurrence: nothing when absent, and exactly one from the multiset otherwise. |
| DatabaseDriver.RemoveFirstDropsFirstOccurrence | native/android/src/main/java/com/nozbe/watermelondb/DatabaseDriver.kt:154 | The occurrence removed is the first one. |
| DatabaseDriver.RemoveEach | native/android/src/main/java/com/nozbe/watermelondb/DatabaseDriver.kt:154 | Removing each listed id once is multiset difference. |
| DatabaseDriver.Batch | native/android/src/main/java/com/nozbe/watermelondb/DatabaseDriver.kt:131-155 | A failed transaction leaves the driver unchanged. A committed one stores its tables, and the cache becomes (old cache plus created ids) minus one occurrence per removed id. |
| DatabaseDriver.BatchCacheMembership | native/android/src/main/java/com/nozbe/watermelondb/DatabaseDriver.kt:131-155 | A record created and not removed is cached afterwards. A record removed, not created and cached at most once before is not. |

## Left out

- `sanitizedRaw` (the schema-driven normalisation applied by `replaceRaw`) is not part of this model. Raws are stored exactly as the helpers build them.
- SyncApply.ApplyRemoteChangesIdempotent: states idempotence only up to what property reads can see, and only for change sets whose ids are all distinct. `''.split(',')` writes a `''` key, and merging can add an `id` key holding `undefined`. `sanitizedRaw` would drop both, so a second apply can add keys that read as `undefined`.
- The implementation of `applyRemoteChanges`, `fetchLocalChanges` and `markLocalChangesAsSynced` (sync/impl) is not part of this model. Their rules come from the design comment, as listed above. Records are kept as one collection's store, not as several collections.
- SyncApply.ApplyOne: a synced record is merged with the server's version, not replaced by it, so columns that only the local raw holds survive. The design comment says "replace contents". With `sanitizedRaw` fixing the columns to the schema, the two agree.
- SyncProtocol.Synchronize: the two `getLastPulledAt` reads are taken to succeed. A rejected read would end the run before the pull, or before the apply, with nothing written.
- `sendCreatedAsUpdated` is only passed on to `applyRemoteChanges`, whose implementation is not part of this model, so it is left out. `hasUnsyncedChanges`, `getLastPulledAt`/`setLastPulledAt` storage and `logError` are left out. `lastPulledAt` is a field of the replica.
- The action queue's internals (queueing, `subAction`, interleaving) are not modelled. `isRunning` is a flag, and the code that may run at each `yield` of `synchronize` is a parameter.
- `Database`: `withChangesForTables`, `unsafeResetDatabase`/`_unsafeClearCaches` on the JavaScript side, the collection map and the model classes are left out. They are observable streams and caches with no stated contract.
- `Database.batch`: a record object is reduced to its two flags and referenced by a number standing for its identity; the notifications are a list of those references. The collections' caches and change streams are not modelled.
- MatcherOperators.RawFieldEquals: a string is never loosely equal to a number or boolean, because numeric strings are not parsed (`'5' == 5` is true in JavaScript). The same `NaN` treatment applies to the relational operators. Numbers are integers, not IEEE doubles.
- MatcherOperators.Gt: strings compare by Unicode code point, not by UTF-16 code unit. This differs only for characters outside the Basic Multilingual Plane. The same holds for Gte, Lt and Lte.
- `likeToRegexp`, `encodeName` and `encodeValue` are parameters, because their code is not part of this model. The query builders (`Q.where`, `Q.or`, `Q.gt`, ...) are taken as constructors of the query syntax tree. The `operators` table of the matcher is modelled as one function per entry, because the dispatcher that picks an entry is not part of this model.
- DatabaseDriver: the SQL text, cursors, `getDeletedRecords`, `destroyDeletedRecords`, `count`, local storage (`getLocal`/`setLocal`/`removeLocal`), `close` and logging are left out. SQL execution is abstract: a cursor for `cachedQuery`, and a transaction function for `batch` and `migrate`.
- DatabaseDriver.UnsafeResetDatabase: setting up a schema is taken to create that schema's tables empty. A failing schema transaction is not modelled.
- DatabaseDriver.Find: a missing table is reported as `NoSuchTable`, standing in for the SQLite exception. Because the cache is one list for all tables, an id cached from one table is also reported as cached for another.
- `Encryptor.java`, `Collection`, the decorators, `Model/helpers.js` and `randomId` are not part of this model. They are Android cryptography, object wiring and random generation.
