/** What is read back of a table the Hive Metastore catalog created. */
module HmsCreateRead {
  import opened Arrow
  import opened Text
  import opened Json
  import opened HiveSyntax
  import opened LargeProperty
  import opened PartitionColumns
  import opened HmsTable
  import opened SparkKeys
  import SparkSchema
  import S = SparkRoundTrip

  // Creating

  datatype CreateOptions = CreateOptions(columns: seq<Column>, comment: Option<string>, constraints: nat,
                                         location: Option<string>, format: string,
                                         partitionBy: seq<PartitionField>, sortBy: nat, bucketed: bool,
                                         replace: bool, properties: seq<(string, string)>)

  /** `HiveCatalogFormat::from_format`: the logical format; the storage classes are a parameter of the model. */
  function LogicalFormat(format: string): Result<string> {
    var f := ToLower(Trim(format));
    if f == "delta" || f == "deltalake" then Ok("delta")
    else if f == "parquet" || f == "csv" || f == "textfile" || f == "json" || f == "orc" || f == "avro" then Ok(f)
    else Err(NotSupported)
  }

  /** The table `create_table` hands to the Metastore. */
  function CreateTable(codec: TextCodec, version: string, storage: string -> StorageFormat,
                       db: string, name: string, options: CreateOptions): Result<Table>
  {
    if options.replace || options.constraints > 0 || options.sortBy > 0 || options.bucketed then Err(NotSupported)
    else if exists i :: 0 <= i < |options.partitionBy| && options.partitionBy[i].transform == Some(OtherTransform) then
      Err(NotSupported)
    else
      var format :- LogicalFormat(options.format);
      var partitionColumns := PartitionNames(options.partitionBy);
      var table :- BuildGenericTable(db, name, options.columns, partitionColumns, options.location, format,
                                     storage(format), options.comment, options.properties);
      InjectSparkMetadata(codec, version, table, options.columns, partitionColumns, format)
  }

  // What a reader should see

  /** The user's properties and, under its own key, the table comment. */
  function UserProperties(options: CreateOptions): map<string, string> {
    OrEmpty(InsertComment(VecToMap(options.properties), options.comment))
  }

  function ColumnName(c: Column): string {
    c.name
  }

  /** A created column as reported: its type in Spark normal form, everything else as given. */
  function Reported(c: Column, isPartition: bool): ColumnStatus {
    ColumnStatus(c.name, S.Normal(c.dataType), c.nullable, c.comment, None, None, isPartition, false, false)
  }

  function ReportedAll(columns: seq<Column>, isPartition: bool): (r: seq<ColumnStatus>)
    ensures |r| == |columns|
    ensures forall i :: 0 <= i < |columns| ==> r[i] == Reported(columns[i], isPartition)
  {
    seq(|columns|, i requires 0 <= i < |columns| => Reported(columns[i], isPartition))
  }

  /** Regular columns first, then the partition columns, each group in schema order. */
  function ExpectedColumns(columns: seq<Column>, partitionColumns: seq<string>): seq<ColumnStatus> {
    var keys := LowerSet(partitionColumns);
    ReportedAll(Select(columns, ColumnName, keys, false), false)
    + ReportedAll(Select(columns, ColumnName, keys, true), true)
  }

  function ExpectedStatus(catalog: string, database: seq<string>, name: string, options: CreateOptions): TableStatus
    requires LogicalFormat(options.format).Ok?
  {
    ExpectedIn(LogicalFormat(options.format).value, catalog, database, name, options)
  }

  function ExpectedIn(format: string, catalog: string, database: seq<string>, name: string, options: CreateOptions)
    : TableStatus
  {
    var partitionColumns := PartitionNames(options.partitionBy);
    TableStatus(catalog, database, name,
                ExpectedColumns(options.columns, partitionColumns),
                GetProperty(Some(UserProperties(options)), COMMENT_KEY),
                options.location,
                format,
                NamesOf(Select(options.columns, ColumnName, LowerSet(partitionColumns), true), ColumnName),
                UserProperties(options),
                true)
  }

  // Parameters

  lemma {:induction false} InsertAllKeys(m: map<string, string>, pairs: seq<(string, string)>, k: string)
    ensures k in InsertAll(m, pairs) ==> k in m || HasKey(pairs, k)
    decreases |pairs|
  {
    if pairs != [] && k in InsertAll(m, pairs) {
      InsertAllKeys(m[pairs[0].0 := pairs[0].1], pairs[1..], k);
      if HasKey(pairs[1..], k) {
        var i :| 0 <= i < |pairs[1..]| && pairs[1..][i].0 == k;
        assert pairs[i + 1].0 == k;
      }
    }
  }

  lemma UserKeysNotReserved(options: CreateOptions, k: string)
    requires NoReserved(options.properties) && k in UserProperties(options)
    ensures !IsReserved(k)
  {
    if options.comment.Some? && k == COMMENT_KEY {
    } else {
      InsertAllKeys(map[], options.properties, k);
    }
  }

  /** The parameters before Spark metadata: the user's, the external mark, and for delta a provider. */
  lemma BaseParameters(db: string, name: string, columns: seq<Column>, parts: seq<string>, location: Option<string>,
                       format: string, storage: StorageFormat, options: CreateOptions)
    requires var r := BuildGenericTable(db, name, columns, parts, location, format, storage,
                                        options.comment, options.properties);
             r.Ok?
    ensures var p := BuildGenericTable(db, name, columns, parts, location, format, storage,
                                       options.comment, options.properties).value.parameters;
            && p.Some?
            && (forall k :: k in p.value && IsReserved(k) ==> k == PROVIDER_KEY || k == EXTERNAL_KEY)
            && GetProperty(p, PROVIDER_KEY) == (if ToLower(format) == "delta" then Some("delta") else None)
            && SCHEMA_KEY !in p.value
            && VisibleProperties(p) == UserProperties(options)
  {
    var p := BuildGenericTable(db, name, columns, parts, location, format, storage,
                               options.comment, options.properties).value.parameters.value;
    var user := UserProperties(options);
    FixedKeyFamilies();
    assert IsReserved(PROVIDER_KEY) && IsReserved(EXTERNAL_KEY) && IsReserved(SCHEMA_KEY);
    forall k
      ensures k in user ==> !IsReserved(k)
    {
      if k in user {
        UserKeysNotReserved(options, k);
      }
    }
    assert forall k :: k in p ==> k in user || k == PROVIDER_KEY || k == EXTERNAL_KEY;
    assert VisibleProperties(Some(p)) == user;
  }

  /** Spark metadata changes no visible property, and its schema and provider are read back. */
  lemma InjectedParameters(base: map<string, string>, text: string, parts: seq<string>, format: string, version: string)
    requires SCHEMA_KEY !in base && |text| < USIZE_MAX
    ensures var p := InsertAll(base, SparkPairs(text, parts, format, version));
            && ReadProp(Some(p), SCHEMA_KEY) == Ok(Some(text))
            && GetProperty(Some(p), PROVIDER_KEY) == Some(format)
            && VisibleProperties(Some(p)) == VisibleProperties(Some(base))
  {
    var pairs := SparkPairs(text, parts, format, version);
    var p := InsertAll(base, pairs);
    SparkPairsDistinct(text, parts, format, version);
    InsertAllHolds(base, pairs);
    SparkPairsParts(text, parts, format, version);
    var n := |SplitPairs(SCHEMA_KEY, text, CHUNK_SIZE)|;
    assert Holds(p, SplitPairs(SCHEMA_KEY, text, CHUNK_SIZE)) by {
      assert pairs[..n] == SplitPairs(SCHEMA_KEY, text, CHUNK_SIZE);
    }
    if |text| > CHUNK_SIZE {
      SchemaKeyAbsent(text, parts, format, version);
      InsertAllKeeps(base, pairs, SCHEMA_KEY);
    }
    ReadBack(p, SCHEMA_KEY, text, CHUNK_SIZE);
    assert pairs[|pairs| - 2] == (PROVIDER_KEY, format);
    forall k | !IsReserved(k)
      ensures (k in p <==> k in base) && (k in p ==> p[k] == base[k])
    {
      if HasKey(pairs, k) {
        SparkPairsReserved(text, parts, format, version, k);
      }
      InsertAllKeeps(base, pairs, k);
    }
  }

  lemma FormatReadBack(format: string)
    requires LogicalFormat(format).Ok?
    ensures var f := LogicalFormat(format).value; ToLower(Trim(f)) == f && f != "deltalake"
  {
    var f := LogicalFormat(format).value;
    assert LowerWord(f);
    LowerWordText(f);
  }

  // Columns

  lemma {:induction false} SelectReported(columns: seq<Column>, keys: set<string>, among: bool)
    ensures Select(ReportedAll(columns, false), StatusName, keys, among)
            == ReportedAll(Select(columns, ColumnName, keys, among), false)
  {
    if columns != [] {
      var all := ReportedAll(columns, false);
      assert all[1..] == ReportedAll(columns[1..], false);
      SelectReported(columns[1..], keys, among);
    }
  }

  lemma {:induction false} SelectNothing<T>(items: seq<T>, name: T -> string)
    ensures Select(items, name, {}, false) == items && Select(items, name, {}, true) == []
  {
    if items != [] {
      SelectNothing(items[1..], name);
    }
  }

  /** The same names are selected, whatever the items carry besides. */
  lemma {:induction false} SelectNames<T, U>(a: seq<T>, nameA: T -> string, b: seq<U>, nameB: U -> string,
                                             keys: set<string>, among: bool)
    requires NamesOf(a, nameA) == NamesOf(b, nameB)
    ensures NamesOf(Select(a, nameA, keys, among), nameA) == NamesOf(Select(b, nameB, keys, among), nameB)
  {
    assert |NamesOf(a, nameA)| == |a| && |NamesOf(b, nameB)| == |b|;
    if a != [] {
      assert NamesOf(a, nameA)[0] == nameA(a[0]) && NamesOf(b, nameB)[0] == nameB(b[0]);
      assert NamesOf(a[1..], nameA) == NamesOf(a, nameA)[1..];
      assert NamesOf(b[1..], nameB) == NamesOf(b, nameB)[1..];
      SelectNames(a[1..], nameA, b[1..], nameB, keys, among);
    }
  }

  predicate AllNamed(keys: seq<FieldSchema>) {
    forall i :: 0 <= i < |keys| ==> keys[i].name.Some?
  }

  lemma {:induction false} FieldNamesOfNamed(keys: seq<FieldSchema>)
    requires AllNamed(keys)
    ensures FieldNames(keys) == NamesOf(keys, SchemaName)
  {
    if keys != [] {
      FieldNamesOfNamed(keys[1..]);
      assert NamesOf(keys, SchemaName)[1..] == NamesOf(keys[1..], SchemaName);
    }
  }

  lemma {:induction false} RouteNamed(schemas: seq<FieldSchema>, lookup: map<string, string>)
    requires AllNamed(schemas)
    ensures AllNamed(Route(schemas, SchemaName, lookup).partition)
  {
    if schemas != [] {
      var key := ToLower(SchemaName(schemas[0]));
      RouteNamed(schemas[1..], if key in lookup then lookup - {key} else lookup);
    }
  }

  /** What `build_columns` promises about the partition keys it returns. */
  lemma PartitionKeys(columns: seq<Column>, parts: seq<string>)
    requires BuildColumns(columns, parts).Ok?
    ensures var names := FieldNames(BuildColumns(columns, parts).value.1);
            && LowerSet(names) == LowerSet(parts) <= LowerSet(NamesOf(columns, ColumnName))
            && (names == [] <==> parts == [])
            && (DistinctLower(NamesOf(columns, ColumnName)) ==>
                  names == NamesOf(Select(columns, ColumnName, LowerSet(parts), true), ColumnName))
  {
    var schemas := ColumnsToSchemas(columns).value;
    var lookup := BuildLookup(parts);
    var keys := Route(schemas, SchemaName, lookup).partition;
    assert NamesOf(schemas, SchemaName) == NamesOf(columns, ColumnName);
    RouteNamed(schemas, lookup);
    FieldNamesOfNamed(keys);
    RoutePartitionNames(schemas, SchemaName, lookup);
    RouteUnmatched(schemas, SchemaName, lookup);
    if parts != [] {
      assert ToLower(parts[0]) in LowerSet(parts);
    }
    if DistinctLower(NamesOf(columns, ColumnName)) {
      RouteSelects(schemas, SchemaName, lookup);
      SelectNames(schemas, SchemaName, columns, ColumnName, LowerSet(parts), true);
    }
  }

  lemma NormalStatuses(columns: seq<Column>)
    ensures FieldStatuses(S.NormalFields(ColumnFields(columns))) == ReportedAll(columns, false)
  {
    var fields := ColumnFields(columns);
    forall i | 0 <= i < |columns|
      ensures FieldStatuses(S.NormalFields(fields))[i] == Reported(columns[i], false)
    {
      assert S.NormalFields(fields)[i] == S.NormalField(fields[i]);
      assert SparkSchema.CommentOf(SparkSchema.CommentMetadata(columns[i].comment)) == columns[i].comment;
    }
  }

  lemma ReorderDistinct(columns: seq<Column>, names: seq<string>, keys: set<string>)
    requires names != [] && DistinctLower(NamesOf(columns, ColumnName))
    requires LowerSet(names) == keys <= LowerSet(NamesOf(columns, ColumnName))
    ensures ReorderSparkColumns(ReportedAll(columns, false), names)
            == Ok(ReportedAll(Select(columns, ColumnName, keys, false), false)
                  + ReportedAll(Select(columns, ColumnName, keys, true), true))
  {
    var all := ReportedAll(columns, false);
    assert NamesOf(all, StatusName) == NamesOf(columns, ColumnName);
    SelectReported(columns, keys, false);
    SelectReported(columns, keys, true);
    RouteSelects(all, StatusName, BuildLookup(names));
    var selected := Select(columns, ColumnName, keys, true);
    assert MarkPartition(ReportedAll(selected, false)) == ReportedAll(selected, true);
  }

  /** The columns that come back, and exactly when they do. */
  lemma ReorderBack(columns: seq<Column>, parts: seq<string>)
    requires BuildColumns(columns, parts).Ok?
    ensures ReorderSparkColumns(ReportedAll(columns, false), FieldNames(BuildColumns(columns, parts).value.1)) ==
            if parts == [] || DistinctLower(NamesOf(columns, ColumnName)) then Ok(ExpectedColumns(columns, parts))
            else Err(External)
  {
    var all := ReportedAll(columns, false);
    var names := FieldNames(BuildColumns(columns, parts).value.1);
    var keys := LowerSet(parts);
    PartitionKeys(columns, parts);
    assert NamesOf(all, StatusName) == NamesOf(columns, ColumnName);
    if parts == [] {
      SelectNothing(columns, ColumnName);
      assert ExpectedColumns(columns, parts) == all;
    } else if DistinctLower(NamesOf(columns, ColumnName)) {
      ReorderDistinct(columns, names, keys);
    }
  }

  // Which tables are accepted

  predicate AllPrintable(columns: seq<Column>) {
    forall i :: 0 <= i < |columns| ==> Print(Hive, columns[i].dataType).Ok?
  }

  predicate AllInJson(fields: seq<Field>) {
    forall i :: 0 <= i < |fields| ==> SparkSchema.ToJson(fields[i].dataType).Ok?
  }

  lemma {:induction false} SchemasAccepted(columns: seq<Column>)
    ensures ColumnsToSchemas(columns).Ok? <==> AllPrintable(columns)
  {
    if columns != [] {
      SchemasAccepted(columns[1..]);
      assert forall i :: 0 < i < |columns| ==> columns[i] == columns[1..][i - 1];
    }
  }

  lemma {:induction false} FieldsAccepted(fields: seq<Field>)
    ensures SparkSchema.FieldsToJson(fields).Ok? <==> AllInJson(fields)
  {
    if fields != [] {
      FieldsAccepted(fields[1..]);
      assert forall i :: 0 < i < |fields| ==> fields[i] == fields[1..][i - 1];
    }
  }

  lemma ColumnsAccepted(columns: seq<Column>, parts: seq<string>)
    ensures BuildColumns(columns, parts).Ok? <==>
            AllPrintable(columns) && LowerSet(parts) <= LowerSet(NamesOf(columns, ColumnName))
  {
    SchemasAccepted(columns);
    if ColumnsToSchemas(columns).Ok? {
      PartitionsAccepted(columns, parts);
    }
  }

  lemma PartitionsAccepted(columns: seq<Column>, parts: seq<string>)
    requires ColumnsToSchemas(columns).Ok?
    ensures BuildColumns(columns, parts).Ok? <==> LowerSet(parts) <= LowerSet(NamesOf(columns, ColumnName))
  {
    var schemas := ColumnsToSchemas(columns).value;
    RouteUnmatched(schemas, SchemaName, BuildLookup(parts));
    assert NamesOf(schemas, SchemaName) == NamesOf(columns, ColumnName);
    EmptyDifference(LowerSet(parts), LowerSet(NamesOf(columns, ColumnName)));
  }

  lemma EmptyDifference(a: set<string>, b: set<string>)
    ensures a - b == {} <==> a <= b
  {
    forall x | x in a && a - b == {} ensures x in b {
      assert x !in a - b;
    }
  }

  /** What `create_table` accepts, said without running it. */
  predicate Accepted(options: CreateOptions) {
    && !options.replace && options.constraints == 0 && options.sortBy == 0 && !options.bucketed
    && (forall i :: 0 <= i < |options.partitionBy| ==> options.partitionBy[i].transform != Some(OtherTransform))
    && LogicalFormat(options.format).Ok?
    && NoReserved(options.properties)
    && AllPrintable(options.columns)
    && AllInJson(ColumnFields(options.columns))
    && LowerSet(PartitionNames(options.partitionBy)) <= LowerSet(NamesOf(options.columns, ColumnName))
  }

  /** A definition is built exactly for those options; names that collide ignoring case are not refused. */
  lemma CreateAccepts(codec: TextCodec, version: string, storage: string -> StorageFormat,
                      db: string, name: string, options: CreateOptions)
    ensures CreateTable(codec, version, storage, db, name, options).Ok? <==> Accepted(options)
  {
    ColumnsAccepted(options.columns, PartitionNames(options.partitionBy));
    FieldsAccepted(ColumnFields(options.columns));
  }

  // The theorem

  /**
  Reading back a table the catalog created. The read succeeds if and only if the table is
  not partitioned or its column names are distinct ignoring case; and then it reports
  exactly what was asked for: the columns in Spark normal form, regular before partition
  columns, the logical format, and the user's properties without any internal key.
  */
  lemma CreateThenRead(codec: TextCodec, version: string, storage: string -> StorageFormat, catalog: string,
                       database: seq<string>, db: string, name: string, options: CreateOptions)
    requires CreateTable(codec, version, storage, db, name, options).Ok?
    requires var schema := SparkSchema.SchemaToJson(ColumnFields(options.columns));
             schema.Ok? ==> codec.Faithful(schema.value) && |codec.encode(schema.value)| < USIZE_MAX
    ensures var table := CreateTable(codec, version, storage, db, name, options).value;
            TableToStatus(codec, catalog, database, table) ==
            if options.partitionBy == [] || DistinctLower(NamesOf(options.columns, ColumnName))
            then Ok(ExpectedStatus(catalog, database, name, options))
            else Err(External)
  {
    var format := LogicalFormat(options.format).value;
    FormatReadBack(options.format);
    ReadBuilt(codec, version, storage(format), catalog, database, db, name, options, format);
  }

  /** The same for a table built and injected with a format that reads back as itself. */
  lemma ReadBuilt(codec: TextCodec, version: string, storage: StorageFormat, catalog: string,
                  database: seq<string>, db: string, name: string, options: CreateOptions, format: string)
    requires var parts := PartitionNames(options.partitionBy);
             var base := BuildGenericTable(db, name, options.columns, parts, options.location, format, storage,
                                           options.comment, options.properties);
             base.Ok? && InjectSparkMetadata(codec, version, base.value, options.columns, parts, format).Ok?
    requires var schema := SparkSchema.SchemaToJson(ColumnFields(options.columns));
             schema.Ok? ==> codec.Faithful(schema.value) && |codec.encode(schema.value)| < USIZE_MAX
    requires ToLower(Trim(format)) == format && format != "deltalake"
    ensures var parts := PartitionNames(options.partitionBy);
            var base := BuildGenericTable(db, name, options.columns, parts, options.location, format, storage,
                                          options.comment, options.properties);
            var table := InjectSparkMetadata(codec, version, base.value, options.columns, parts, format).value;
            TableToStatus(codec, catalog, database, table) ==
            if options.partitionBy == [] || DistinctLower(NamesOf(options.columns, ColumnName))
            then Ok(ExpectedIn(format, catalog, database, name, options))
            else Err(External)
  {
    var columns, parts := options.columns, PartitionNames(options.partitionBy);
    var base := BuildGenericTable(db, name, columns, parts, options.location, format, storage,
                                  options.comment, options.properties).value;
    var table := InjectSparkMetadata(codec, version, base, columns, parts, format).value;
    var text := codec.encode(SparkSchema.SchemaToJson(ColumnFields(columns)).value);
    BaseParameters(db, name, columns, parts, options.location, format, storage, options);
    InjectedParameters(base.parameters.value, text, parts, format, version);
    ReadColumns(codec, table.parameters, columns);
    CommentVisible(table.parameters, UserProperties(options));
    var built := BuildColumns(columns, parts).value;
    assert OrNone(table.partitionKeys) == built.1;
    ReorderBack(columns, parts);
    PartitionKeys(columns, parts);
    SelectNothing(columns, ColumnName);
  }

  // The whole create call

  const VIEW_TABLE_TYPE := "VIRTUAL_VIEW"

  /** `get_table` on a definition the Metastore returned; views are not tables. */
  function ReadTable(codec: TextCodec, catalog: string, database: seq<string>, table: Table): Result<TableStatus> {
    if table.tableType == Some(VIEW_TABLE_TYPE) then Err(NotFound)
    else TableToStatus(codec, catalog, database, table)
  }

  /** What the Metastore holds under the name after `create_table`, and what the call answers; nothing is lost. */
  function CreateCall(codec: TextCodec, version: string, storage: string -> StorageFormat, catalog: string,
                      database: seq<string>, db: string, name: string, options: CreateOptions, ifNotExists: bool,
                      existing: Option<Table>): (Option<Table>, Result<TableStatus>)
  {
    match CreateTable(codec, version, storage, db, name, options)
    case Err(e) => (existing, Err(e))
    case Ok(table) =>
      match existing
      case None => (Some(table), ReadTable(codec, catalog, database, table))
      case Some(there) =>
        (existing, if ifNotExists then ReadTable(codec, catalog, database, there) else Err(AlreadyExists))
  }

  /**
  Creating a table that is not there yet. The definition is stored whenever the options are
  accepted; the call answers with what was asked for if and only if the table is not
  partitioned or its column names are distinct ignoring case. Otherwise it answers an error
  although the table is now there, and no later read can succeed.
  */
  lemma CreateCallExact(codec: TextCodec, version: string, storage: string -> StorageFormat, catalog: string,
                        database: seq<string>, db: string, name: string, options: CreateOptions, ifNotExists: bool)
    requires var schema := SparkSchema.SchemaToJson(ColumnFields(options.columns));
             schema.Ok? ==> codec.Faithful(schema.value) && |codec.encode(schema.value)| < USIZE_MAX
    ensures var r := CreateCall(codec, version, storage, catalog, database, db, name, options, ifNotExists, None);
            && (r.0.Some? <==> Accepted(options))
            && (r.0.Some? ==>
                  && r.1 == ReadTable(codec, catalog, database, r.0.value)
                  && r.1 == if options.partitionBy == [] || DistinctLower(NamesOf(options.columns, ColumnName))
                            then Ok(ExpectedStatus(catalog, database, name, options))
                            else Err(External))
  {
    CreateAccepts(codec, version, storage, db, name, options);
    if CreateTable(codec, version, storage, db, name, options).Ok? {
      CreateThenRead(codec, version, storage, catalog, database, db, name, options);
      CreatedIsNoView(codec, version, storage, db, name, options);
    }
  }

  lemma CreatedIsNoView(codec: TextCodec, version: string, storage: string -> StorageFormat,
                        db: string, name: string, options: CreateOptions)
    requires CreateTable(codec, version, storage, db, name, options).Ok?
    ensures CreateTable(codec, version, storage, db, name, options).value.tableType != Some(VIEW_TABLE_TYPE)
  {
    assert EXTERNAL_TABLE_TYPE[0] != VIEW_TABLE_TYPE[0];
  }

  /** Two columns whose names differ in case only, partitioned by one of them. */
  function CollidingOptions(): CreateOptions {
    CreateOptions([Column("a", Int32, true, None, None, None), Column("A", Int32, true, None, None, None)],
                  None, 0, None, "parquet", [PartitionField("a", None)], 0, false, false, [])
  }

  /** Such a table is stored, and the call that stored it answers an error. */
  lemma StoredButUnreadable(codec: TextCodec, version: string, storage: string -> StorageFormat, catalog: string,
                            database: seq<string>, db: string, name: string)
    requires var schema := SparkSchema.SchemaToJson(ColumnFields(CollidingOptions().columns));
             schema.Ok? ==> codec.Faithful(schema.value) && |codec.encode(schema.value)| < USIZE_MAX
    ensures var r := CreateCall(codec, version, storage, catalog, database, db, name, CollidingOptions(), false, None);
            r.0.Some? && r.1 == Err(External)
  {
    var options := CollidingOptions();
    var names := NamesOf(options.columns, ColumnName);
    CollidingAccepted();
    CollidingNames();
    assert options.partitionBy != [];
    CreateCallExact(codec, version, storage, catalog, database, db, name, options, false);
  }

  lemma CollidingNames()
    ensures !DistinctLower(NamesOf(CollidingOptions().columns, ColumnName))
  {
    var names := NamesOf(CollidingOptions().columns, ColumnName);
    assert names == ["a", "A"];
    assert ToLower(names[0]) == ToLower(names[1]);
  }

  lemma CollidingAccepted()
    ensures Accepted(CollidingOptions())
  {
    var options := CollidingOptions();
    LowerWordText("parquet");
    assert LogicalFormat("parquet") == Ok("parquet");
    var parts, names := PartitionNames(options.partitionBy), NamesOf(options.columns, ColumnName);
    assert parts == ["a"] && names[0] == "a";
    assert LowerSet(parts) <= LowerSet(names) by {
      forall k | k in LowerSet(parts) ensures k in LowerSet(names) {
        assert k == ToLower(names[0]);
      }
    }
  }

  /** The schema text decodes to the reported columns. */
  lemma ReadColumns(codec: TextCodec, parameters: Option<map<string, string>>, columns: seq<Column>)
    requires SparkSchema.SchemaToJson(ColumnFields(columns)).Ok?
    requires var schema := SparkSchema.SchemaToJson(ColumnFields(columns)).value;
             codec.Faithful(schema) && ReadProp(parameters, SCHEMA_KEY) == Ok(Some(codec.encode(schema)))
    ensures ColumnsFromSpark(codec, parameters) == Ok(Some(ReportedAll(columns, false)))
  {
    S.SchemaRoundTrip(ColumnFields(columns));
    NormalStatuses(columns);
  }

  lemma CommentVisible(parameters: Option<map<string, string>>, visible: map<string, string>)
    requires VisibleProperties(parameters) == visible
    ensures GetProperty(parameters, COMMENT_KEY) == GetProperty(Some(visible), COMMENT_KEY)
  {
    assert COMMENT_KEY[0] == 'c';
    assert !IsReserved(COMMENT_KEY);
    assert COMMENT_KEY in VisibleProperties(parameters) <==> COMMENT_KEY in OrEmpty(parameters);
  }
}
