/** The Android driver's schema-version decision and its cache of the record ids already sent
    to JavaScript, over an abstract table store. */
module DatabaseDriver {
  import opened Wrappers
  import opened Values

  // ---------------------------------------------------------------------------
  // Kotlin `Int`

  const IntMin := -0x8000_0000
  const IntMax := 0x7fff_ffff

  type Int32 = x: int | -0x8000_0000 <= x < 0x8000_0000

  /** `a - b` on Kotlin `Int`: two's complement wrap-around. */
  function Sub32(a: Int32, b: Int32): (r: Int32)
    ensures IntMin <= a - b <= IntMax ==> r == a - b
    ensures a - b < IntMin ==> r == a - b + 0x1_0000_0000
    ensures a - b > IntMax ==> r == a - b - 0x1_0000_0000
  {
    (a - b - IntMin) % 0x1_0000_0000 + IntMin
  }

  // ---------------------------------------------------------------------------
  // Schema compatibility

  datatype SchemaCompatibility = Compatible | NeedsSetup | NeedsMigration(fromVersion: Int32)

  /** `isCompatible(schemaVersion)` against the stored `userVersion`. The range
      `1..(schemaVersion - 1)` is computed with wrap-around. */
  function IsCompatible(databaseVersion: Int32, schemaVersion: Int32): (c: SchemaCompatibility)
    ensures c == Compatible <==> databaseVersion == schemaVersion
    ensures c.NeedsMigration? <==>
      databaseVersion != schemaVersion && 1 <= databaseVersion && (databaseVersion < schemaVersion || schemaVersion == IntMin)
    ensures c.NeedsMigration? ==> c.fromVersion == databaseVersion
    ensures c == NeedsSetup <==>
      databaseVersion != schemaVersion && (databaseVersion <= 0 || (schemaVersion < databaseVersion && schemaVersion != IntMin))
  {
    if databaseVersion == schemaVersion then Compatible
    else if databaseVersion == 0 then NeedsSetup
    else if 1 <= databaseVersion <= Sub32(schemaVersion, 1) then NeedsMigration(databaseVersion)
    else NeedsSetup
  }

  /** For every version a schema can actually have, the migration range is the plain one. */
  lemma MigrationRangeForPositiveVersions(databaseVersion: Int32, schemaVersion: Int32)
    requires schemaVersion >= 1
    ensures IsCompatible(databaseVersion, schemaVersion).NeedsMigration? <==> 1 <= databaseVersion < schemaVersion
    ensures IsCompatible(databaseVersion, schemaVersion) == NeedsSetup <==>
      databaseVersion <= 0 || schemaVersion < databaseVersion
  {
  }

  /** At the minimum `Int` the subtraction wraps, and every positive database version is
      reported as needing a migration. */
  lemma MinVersionWraps(databaseVersion: Int32)
    requires databaseVersion >= 1
    ensures IsCompatible(databaseVersion, IntMin) == NeedsMigration(databaseVersion)
  {
  }

  // ---------------------------------------------------------------------------
  // Driver state

  /** Rows by table name and then by record id. */
  type Tables = map<string, map<string, Raw>>

  /** What is on disk: the schema version and the tables. */
  datatype Stored = Stored(userVersion: Int32, tables: Tables)

  /** The driver: the database it has open and the ids whose rows JavaScript already holds. */
  datatype Driver = Driver(database: Stored, cachedRecords: seq<string>)

  datatype DriverError =
    | SchemaNeededError
    | MigrationNeededError(databaseVersion: Int32)
    | IncompatibleMigrationSet(databaseVersion: Int32, from: Int32)
    | TransactionFailed
    | NoSuchTable(table: string)

  datatype Schema = Schema(version: Int32, tables: set<string>)

  datatype MigrationSet = MigrationSet(from: Int32, to: Int32)

  predicate NoDuplicates(s: seq<string>)
  {
    forall i, j :: 0 <= i < j < |s| ==> s[i] != s[j]
  }

  /** The primary constructor: the database opened, nothing cached. */
  function Open(database: Stored): (d: Driver)
    ensures d.database == database && d.cachedRecords == []
  {
    Driver(database, [])
  }

  /** `markAsCached`: appends, whether or not the id is already there. */
  function MarkAsCached(d: Driver, id: string): (d': Driver)
    ensures d'.database == d.database
    ensures d'.cachedRecords == d.cachedRecords + [id]
    ensures multiset(d'.cachedRecords)[id] == multiset(d.cachedRecords)[id] + 1
  {
    d.(cachedRecords := d.cachedRecords + [id])
  }

  /** `isCached`. */
  function IsCached(d: Driver, id: string): (r: bool)
    ensures r <==> multiset(d.cachedRecords)[id] > 0
  {
    id in d.cachedRecords
  }

  /** Caching an id that is not cached yet keeps the list free of duplicates. */
  lemma MarkNewKeepsNoDuplicates(d: Driver, id: string)
    requires NoDuplicates(d.cachedRecords) && !IsCached(d, id)
    ensures NoDuplicates(MarkAsCached(d, id).cachedRecords)
    ensures IsCached(MarkAsCached(d, id), id)
  {
  }

  // ---------------------------------------------------------------------------
  // Constructors

  /** The constructor taking a schema version: refuses a database that needs setting up or
      migrating. */
  function OpenWithVersion(database: Stored, schemaVersion: Int32): (r: Result<Driver, DriverError>)
    ensures r.Success? <==> database.userVersion == schemaVersion
    ensures r.Success? ==> r.value == Open(database)
    ensures r.Failure? && r.error.MigrationNeededError? ==>
      1 <= r.error.databaseVersion == database.userVersion && (database.userVersion < schemaVersion || schemaVersion == IntMin)
    ensures r.Failure? ==> r.error == SchemaNeededError || r.error == MigrationNeededError(database.userVersion)
  {
    match IsCompatible(database.userVersion, schemaVersion)
    case NeedsSetup => Failure(SchemaNeededError)
    case NeedsMigration(from) => Failure(MigrationNeededError(from))
    case Compatible => Success(Open(database))
  }

  /** `unsafeResetDatabase(schema)`: everything destroyed, the cache cleared, the schema set up. */
  function UnsafeResetDatabase(d: Driver, schema: Schema): (d': Driver)
    ensures d'.cachedRecords == []
    ensures d'.database.userVersion == schema.version
    ensures d'.database.tables.Keys == schema.tables
    ensures forall t :: t in d'.database.tables ==> d'.database.tables[t] == map[]
  {
    Driver(Stored(schema.version, map t | t in schema.tables :: map[]), [])
  }

  /** The constructor taking a schema. */
  function OpenWithSchema(database: Stored, schema: Schema): (d: Driver)
    ensures d.cachedRecords == [] && d.database.userVersion == schema.version
  {
    UnsafeResetDatabase(Open(database), schema)
  }

  /** `migrate(migrations)`, with the migration statements run by `run` in a transaction
      (`None` when it throws and rolls back). */
  function Migrate(d: Driver, migrations: MigrationSet, run: Tables -> Option<Tables>): (r: Result<Driver, DriverError>)
    ensures d.database.userVersion != migrations.from ==>
      r == Failure(IncompatibleMigrationSet(d.database.userVersion, migrations.from))
    ensures r.Success? <==> d.database.userVersion == migrations.from && run(d.database.tables).Some?
    ensures r.Success? ==>
      && r.value.database.userVersion == migrations.to
      && r.value.database.tables == run(d.database.tables).value
      && r.value.cachedRecords == d.cachedRecords
  {
    if d.database.userVersion != migrations.from then
      Failure(IncompatibleMigrationSet(d.database.userVersion, migrations.from))
    else match run(d.database.tables)
      case None => Failure(TransactionFailed)
      case Some(tables) => Success(d.(database := Stored(migrations.to, tables)))
  }

  /** The constructor taking a migration set. */
  function OpenWithMigrations(database: Stored, migrations: MigrationSet, run: Tables -> Option<Tables>): (r: Result<Driver, DriverError>)
    ensures r.Success? ==> r.value.cachedRecords == [] && r.value.database.userVersion == migrations.to
  {
    Migrate(Open(database), migrations, run)
  }

  /** A database set up from a schema opens with that schema's version. */
  lemma ResetThenOpenIsCompatible(database: Stored, schema: Schema)
    ensures OpenWithVersion(OpenWithSchema(database, schema).database, schema.version).Success?
  {
  }

  /** A database migrated to a schema's version opens with that version. */
  lemma MigrateThenOpenIsCompatible(database: Stored, migrations: MigrationSet, run: Tables -> Option<Tables>)
    requires OpenWithMigrations(database, migrations, run).Success?
    ensures OpenWithVersion(OpenWithMigrations(database, migrations, run).value.database, migrations.to).Success?
  {
  }

  // ---------------------------------------------------------------------------
  // Queries

  datatype Found = CachedId(id: string) | RowMap(row: Raw) | NotFound

  /** `find(table, id)`. */
  function Find(d: Driver, table: string, id: string): (r: Result<(Driver, Found), DriverError>)
    ensures IsCached(d, id) ==> r == Success((d, CachedId(id)))
    ensures !IsCached(d, id) && table !in d.database.tables ==> r == Failure(NoSuchTable(table))
    ensures !IsCached(d, id) && table in d.database.tables && id !in d.database.tables[table] ==>
      r == Success((d, NotFound))
    ensures !IsCached(d, id) && table in d.database.tables && id in d.database.tables[table] ==>
      r == Success((MarkAsCached(d, id), RowMap(d.database.tables[table][id])))
  {
    if IsCached(d, id) then Success((d, CachedId(id)))
    else if table !in d.database.tables then Failure(NoSuchTable(table))
    else if id !in d.database.tables[table] then Success((d, NotFound))
    else Success((MarkAsCached(d, id), RowMap(d.database.tables[table][id])))
  }

  /** A row found once is answered from the cache afterwards. */
  lemma FindTwiceHitsCache(d: Driver, table: string, id: string)
    requires Find(d, table, id).Success? && Find(d, table, id).value.1.RowMap?
    ensures Find(Find(d, table, id).value.0, table, id) == Success((Find(d, table, id).value.0, CachedId(id)))
  {
  }

  /** `find` never caches an id twice. */
  lemma FindKeepsNoDuplicates(d: Driver, table: string, id: string)
    requires NoDuplicates(d.cachedRecords) && Find(d, table, id).Success?
    ensures NoDuplicates(Find(d, table, id).value.0.cachedRecords)
  {
  }

  /** One row of a cursor: its `id` column and the whole row. */
  datatype CursorRow = CursorRow(id: string, row: Raw)

  /** The result of running a raw SQL query. */
  datatype Cursor = Cursor(columnNames: seq<string>, rows: seq<CursorRow>)

  /** The row `i` of a cursor carries an id seen before it, in the cache or earlier rows. */
  predicate SeenBefore(cache: seq<string>, rows: seq<CursorRow>, i: int)
    requires 0 <= i < |rows|
  {
    rows[i].id in cache || exists j :: 0 <= j < i && rows[j].id == rows[i].id
  }

  /** `cachedQuery(query)`, given the cursor the query produces: a bare id for each row whose
      id is cached, and the row itself, newly cached, for every other row. */
  method CachedQuery(d: Driver, cursor: Cursor) returns (d': Driver, result: seq<Found>)
    ensures d'.database == d.database
    ensures !(|cursor.rows| > 0 && "id" in cursor.columnNames) ==> d' == d && result == []
    ensures |cursor.rows| > 0 && "id" in cursor.columnNames ==>
      && |result| == |cursor.rows|
      && forall i :: 0 <= i < |cursor.rows| ==>
           result[i] == if SeenBefore(d.cachedRecords, cursor.rows, i) then CachedId(cursor.rows[i].id)
                        else RowMap(cursor.rows[i].row)
    ensures d.cachedRecords <= d'.cachedRecords
    ensures forall id :: id in d'.cachedRecords <==>
      id in d.cachedRecords || (|cursor.rows| > 0 && "id" in cursor.columnNames && exists j :: 0 <= j < |cursor.rows| && cursor.rows[j].id == id)
    ensures NoDuplicates(d.cachedRecords) ==> NoDuplicates(d'.cachedRecords)
  {
    d' := d;
    result := [];
    if |cursor.rows| > 0 && "id" in cursor.columnNames {
      var rows := cursor.rows;
      var i := 0;
      while i < |rows|
        invariant 0 <= i <= |rows|
        invariant d'.database == d.database
        invariant d.cachedRecords <= d'.cachedRecords
        invariant forall id :: id in d'.cachedRecords <==>
          id in d.cachedRecords || exists j :: 0 <= j < i && rows[j].id == id
        invariant NoDuplicates(d.cachedRecords) ==> NoDuplicates(d'.cachedRecords)
        invariant |result| == i
        invariant forall k :: 0 <= k < i ==>
          result[k] == if SeenBefore(d.cachedRecords, rows, k) then CachedId(rows[k].id) else RowMap(rows[k].row)
      {
        var id := rows[i].id;
        assert IsCached(d', id) <==> SeenBefore(d.cachedRecords, rows, i);
        if IsCached(d', id) {
          result := result + [CachedId(id)];
        } else {
          d' := MarkAsCached(d', id);
          result := result + [RowMap(rows[i].row)];
        }
        i := i + 1;
      }
    }
  }

  // ---------------------------------------------------------------------------
  // Batch

  datatype DriverOp =
    | Execute(query: string)
    | Create(id: string, query: string)
    | MarkAsDeleted(table: string, id: string)
    | DestroyPermanently(table: string, id: string)

  /** The ids of the created records, in order. */
  function NewIds(ops: seq<DriverOp>): (ids: seq<string>)
    ensures forall id :: id in ids <==> exists i :: 0 <= i < |ops| && ops[i].Create? && ops[i].id == id
    decreases |ops|
  {
    if |ops| == 0 then []
    else (if ops[0].Create? then [ops[0].id] else []) + NewIds(ops[1..])
  }

  /** The ids of the records marked as deleted or destroyed, in order. */
  function RemovedIds(ops: seq<DriverOp>): (ids: seq<string>)
    ensures forall id :: id in ids <==>
      exists i :: 0 <= i < |ops| && (ops[i].MarkAsDeleted? || ops[i].DestroyPermanently?) && ops[i].id == id
    decreases |ops|
  {
    if |ops| == 0 then []
    else (if ops[0].MarkAsDeleted? || ops[0].DestroyPermanently? then [ops[0].id] else []) + RemovedIds(ops[1..])
  }

  /** `ArrayList.remove(element)`: drops the first occurrence only. */
  function RemoveFirst(s: seq<string>, x: string): (r: seq<string>)
    ensures x !in s ==> r == s
    ensures multiset(r) == multiset(s) - multiset{x}
    decreases |s|
  {
    if |s| == 0 then s
    else
      assert s == [s[0]] + s[1..];
      if s[0] == x then s[1..] else [s[0]] + RemoveFirst(s[1..], x)
  }

  /** The occurrence `RemoveFirst` drops is the first one: everything before it is kept, and
      so is everything after it. */
  lemma {:induction false} RemoveFirstDropsFirstOccurrence(s: seq<string>, x: string, i: nat)
    requires i < |s| && s[i] == x && x !in s[..i]
    ensures RemoveFirst(s, x) == s[..i] + s[i + 1..]
    decreases i
  {
    if i > 0 {
      assert s[1..][..i - 1] == s[1..i];
      assert x !in s[1..][..i - 1];
      RemoveFirstDropsFirstOccurrence(s[1..], x, i - 1);
      assert s[..i] == [s[0]] + s[1..][..i - 1];
      assert s[1..][i..] == s[i + 1..];
    }
  }

  /** `removedIds.forEach { cachedRecords.remove(it) }`. */
  function RemoveEach(s: seq<string>, xs: seq<string>): (r: seq<string>)
    ensures multiset(r) == multiset(s) - multiset(xs)
    decreases |xs|
  {
    if |xs| == 0 then s
    else
      var r := RemoveEach(RemoveFirst(s, xs[0]), xs[1..]);
      assert multiset(xs) == multiset{xs[0]} + multiset(xs[1..]) by {
        assert xs == [xs[0]] + xs[1..];
      }
      DifferenceOfDifference(multiset(s), multiset{xs[0]}, multiset(xs[1..]));
      r
  }

  lemma DifferenceOfDifference(a: multiset<string>, b: multiset<string>, c: multiset<string>)
    ensures a - b - c == a - (b + c)
  {
  }

  /** The outcome of a batch: the driver afterwards and whether it succeeded. */
  datatype BatchRun = BatchRun(driver: Driver, outcome: Outcome<DriverError>)

  /** `batch(operations)`, with the table effect of the operations given as `transaction`
      (`None` when it throws and rolls back). The cache is only touched once the transaction
      has committed. */
  function Batch(d: Driver, ops: seq<DriverOp>, transaction: (Tables, seq<DriverOp>) -> Option<Tables>): (run: BatchRun)
    ensures run.outcome.Pass? <==> transaction(d.database.tables, ops).Some?
    ensures run.outcome.Fail? ==> run.driver == d && run.outcome.error == TransactionFailed
    ensures run.outcome.Pass? ==>
      && run.driver.database == d.database.(tables := transaction(d.database.tables, ops).value)
      && multiset(run.driver.cachedRecords) == multiset(d.cachedRecords + NewIds(ops)) - multiset(RemovedIds(ops))
  {
    match transaction(d.database.tables, ops)
    case None => BatchRun(d, Fail(TransactionFailed))
    case Some(tables) =>
      var cached := RemoveEach(d.cachedRecords + NewIds(ops), RemovedIds(ops));
      BatchRun(Driver(d.database.(tables := tables), cached), Pass)
  }

  /** A record created and not removed in a committed batch is cached afterwards; one removed
      and not created (nor cached more than once before) is not. */
  lemma BatchCacheMembership(d: Driver, ops: seq<DriverOp>, transaction: (Tables, seq<DriverOp>) -> Option<Tables>, id: string)
    requires Batch(d, ops, transaction).outcome.Pass?
    ensures id in NewIds(ops) && id !in RemovedIds(ops) ==> IsCached(Batch(d, ops, transaction).driver, id)
    ensures id in RemovedIds(ops) && id !in NewIds(ops) && multiset(d.cachedRecords)[id] <= 1 ==>
      !IsCached(Batch(d, ops, transaction).driver, id)
  {
    var after := Batch(d, ops, transaction).driver.cachedRecords;
    var before := d.cachedRecords + NewIds(ops);
    assert multiset(after) == multiset(before) - multiset(RemovedIds(ops));
    if id in NewIds(ops) && id !in RemovedIds(ops) {
      assert multiset(before)[id] >= 1;
      assert multiset(RemovedIds(ops))[id] == 0;
      assert multiset(after)[id] >= 1;
    }
    if id in RemovedIds(ops) && id !in NewIds(ops) && multiset(d.cachedRecords)[id] <= 1 {
      assert multiset(before)[id] == multiset(d.cachedRecords)[id] + multiset(NewIds(ops))[id];
      assert multiset(NewIds(ops))[id] == 0;
      assert multiset(RemovedIds(ops))[id] >= 1;
      assert multiset(after)[id] == 0;
    }
  }
}
