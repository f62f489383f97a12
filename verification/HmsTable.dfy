/** Hive Metastore table definitions: building one, adding Spark metadata, and reporting it. */
module HmsTable {
  import opened Arrow
  import opened Text
  import opened Json
  import opened HiveSyntax
  import opened LargeProperty
  import opened PartitionColumns
  import SparkSchema

  const EXTERNAL_KEY := "EXTERNAL"
  const PROVIDER_KEY := "spark.sql.sources.provider"
  const SCHEMA_KEY := "spark.sql.sources.schema"
  const NUM_PART_COLS_KEY := "spark.sql.sources.schema.numPartCols"
  const VERSION_KEY := "spark.sql.create.version"
  const COMMENT_KEY := SparkSchema.COMMENT_KEY
  const EXTERNAL_TABLE_TYPE := "EXTERNAL_TABLE"
  const CHUNK_SIZE: nat := 4000

  // The Metastore's records

  datatype FieldSchema = FieldSchema(name: Option<string>, typeText: Option<string>, comment: Option<string>)

  datatype StorageFormat = StorageFormat(inputFormat: string, outputFormat: string, serdeLibrary: string)

  datatype SerDe = SerDe(library: Option<string>, path: Option<string>)

  datatype Storage = Storage(cols: Option<seq<FieldSchema>>, location: Option<string>,
                             inputFormat: Option<string>, outputFormat: Option<string>, serde: Option<SerDe>)

  datatype Table = Table(dbName: Option<string>, tableName: Option<string>, tableType: Option<string>,
                         sd: Option<Storage>, partitionKeys: Option<seq<FieldSchema>>,
                         parameters: Option<map<string, string>>)

  // The catalog's records

  datatype Column = Column(name: string, dataType: DataType, nullable: bool, comment: Option<string>,
                           default: Option<string>, generatedAs: Option<string>)

  datatype ColumnStatus = ColumnStatus(name: string, dataType: DataType, nullable: bool, comment: Option<string>,
                                       default: Option<string>, generatedAs: Option<string>,
                                       isPartition: bool, isBucket: bool, isCluster: bool)

  datatype TableStatus = TableStatus(catalog: string, database: seq<string>, name: string,
                                     columns: seq<ColumnStatus>, comment: Option<string>, location: Option<string>,
                                     format: string, partitionBy: seq<string>, properties: map<string, string>,
                                     isExternal: bool)

  // Properties

  predicate IsReserved(key: string) {
    StartsWith(key, "spark.sql.") || key == EXTERNAL_KEY
  }

  predicate NoReserved(properties: seq<(string, string)>) {
    forall i :: 0 <= i < |properties| ==> !IsReserved(properties[i].0)
  }

  /** `vec_to_map`: no map for an empty list, and the last value of a repeated key. */
  function VecToMap(properties: seq<(string, string)>): Option<map<string, string>> {
    if properties == [] then None else Some(InsertAll(map[], properties))
  }

  function OrEmpty(parameters: Option<map<string, string>>): map<string, string> {
    if parameters.Some? then parameters.value else map[]
  }

  function InsertComment(parameters: Option<map<string, string>>, comment: Option<string>)
    : Option<map<string, string>>
  {
    if comment.Some? then Some(OrEmpty(parameters)[COMMENT_KEY := comment.value]) else parameters
  }

  /** `filter_spark_properties`; the source lists the entries in key order. */
  function VisibleProperties(parameters: Option<map<string, string>>): map<string, string> {
    map k | k in OrEmpty(parameters) && !IsReserved(k) :: OrEmpty(parameters)[k]
  }

  function GetProperty(parameters: Option<map<string, string>>, key: string): Option<string> {
    if key in OrEmpty(parameters) then Some(OrEmpty(parameters)[key]) else None
  }

  // Building

  function ColumnToSchema(c: Column): Result<FieldSchema> {
    var text :- Print(Hive, c.dataType);
    Ok(FieldSchema(Some(c.name), Some(text), c.comment))
  }

  function ColumnsToSchemas(columns: seq<Column>): (r: Result<seq<FieldSchema>>)
    ensures r.Ok? ==> |r.value| == |columns| && forall i :: 0 <= i < |columns| ==> r.value[i].name == Some(columns[i].name)
  {
    if columns == [] then Ok([])
    else
      var first :- ColumnToSchema(columns[0]);
      var rest :- ColumnsToSchemas(columns[1..]);
      Ok([first] + rest)
  }

  function SchemaName(f: FieldSchema): string {
    if f.name.Some? then f.name.value else ""
  }

  function BuildColumns(columns: seq<Column>, partitionColumns: seq<string>)
    : Result<(seq<FieldSchema>, seq<FieldSchema>)>
  {
    var schemas :- ColumnsToSchemas(columns);
    var r := Route(schemas, SchemaName, BuildLookup(partitionColumns));
    if r.unmatched.Keys == {} then Ok((r.regular, r.partition)) else Err(InvalidArgument)
  }

  /** `build_generic_table`. */
  function BuildGenericTable(db: string, name: string, columns: seq<Column>, partitionColumns: seq<string>,
                             location: Option<string>, logicalFormat: string, storage: StorageFormat,
                             comment: Option<string>, properties: seq<(string, string)>): Result<Table>
  {
    if !NoReserved(properties) then Err(InvalidArgument)
    else
      var cols :- BuildColumns(columns, partitionColumns);
      var withComment := OrEmpty(InsertComment(VecToMap(properties), comment));
      var withProvider := if ToLower(logicalFormat) == "delta" then withComment[PROVIDER_KEY := "delta"] else withComment;
      Ok(Table(Some(db), Some(name), Some(EXTERNAL_TABLE_TYPE),
               Some(Storage(Some(cols.0), location, Some(storage.inputFormat), Some(storage.outputFormat),
                            Some(SerDe(Some(storage.serdeLibrary), location)))),
               if cols.1 == [] then None else Some(cols.1),
               Some(withProvider[EXTERNAL_KEY := "TRUE"])))
  }

  // Spark metadata

  function ColumnField(c: Column): Field {
    Field(c.name, c.dataType, c.nullable, SparkSchema.CommentMetadata(c.comment))
  }

  function ColumnFields(columns: seq<Column>): (r: seq<Field>)
    ensures |r| == |columns|
    ensures forall i :: 0 <= i < |columns| ==> r[i] == ColumnField(columns[i])
  {
    seq(|columns|, i requires 0 <= i < |columns| => ColumnField(columns[i]))
  }

  function PartColKey(i: nat): string {
    "spark.sql.sources.schema.partCol." + NatToString(i)
  }

  function PartColPairs(partitionColumns: seq<string>): (r: seq<(string, string)>)
    ensures |r| == |partitionColumns|
    ensures forall i :: 0 <= i < |r| ==> r[i] == (PartColKey(i), partitionColumns[i])
  {
    seq(|partitionColumns|, i requires 0 <= i < |partitionColumns| => (PartColKey(i), partitionColumns[i]))
  }

  /** The properties `inject_spark_metadata` inserts, in order. */
  function SparkPairs(schemaText: string, partitionColumns: seq<string>, format: string, version: string)
    : seq<(string, string)>
  {
    SplitPairs(SCHEMA_KEY, schemaText, CHUNK_SIZE)
    + (if partitionColumns == [] then []
       else [(NUM_PART_COLS_KEY, NatToString(|partitionColumns|))] + PartColPairs(partitionColumns))
    + [(PROVIDER_KEY, format), (VERSION_KEY, "zelox-" + version)]
  }

  /** `inject_spark_metadata`; `codec` and `version` stand for serde_json and the package version. */
  function InjectSparkMetadata(codec: TextCodec, version: string, table: Table, columns: seq<Column>,
                               partitionColumns: seq<string>, format: string): Result<Table>
  {
    var schema :- SparkSchema.SchemaToJson(ColumnFields(columns));
    var pairs := SparkPairs(codec.encode(schema), partitionColumns, format, version);
    Ok(table.(parameters := Some(InsertAll(OrEmpty(table.parameters), pairs))))
  }

  // Reporting

  function FieldNames(keys: seq<FieldSchema>): seq<string> {
    if keys == [] then []
    else (if keys[0].name.Some? then [keys[0].name.value] else []) + FieldNames(keys[1..])
  }

  function FieldStatus(f: Field): ColumnStatus {
    ColumnStatus(f.name, f.dataType, f.nullable, SparkSchema.CommentOf(f.metadata), None, None, false, false, false)
  }

  function FieldStatuses(fields: seq<Field>): (r: seq<ColumnStatus>)
    ensures |r| == |fields|
    ensures forall i :: 0 <= i < |fields| ==> r[i] == FieldStatus(fields[i])
  {
    seq(|fields|, i requires 0 <= i < |fields| => FieldStatus(fields[i]))
  }

  function ColumnsFromSpark(codec: TextCodec, parameters: Option<map<string, string>>)
    : Result<Option<seq<ColumnStatus>>>
  {
    var text :- ReadProp(parameters, SCHEMA_KEY);
    if text.None? then Ok(None)
    else
      match codec.decode(text.value)
      case None => Err(External)
      case Some(schema) =>
        var fields :- SparkSchema.SchemaFromJson(schema);
        Ok(Some(FieldStatuses(fields)))
  }

  function StatusName(c: ColumnStatus): string {
    c.name
  }

  function MarkPartition(columns: seq<ColumnStatus>): (r: seq<ColumnStatus>)
    ensures |r| == |columns|
    ensures forall i :: 0 <= i < |columns| ==> r[i] == columns[i].(isPartition := true)
  {
    seq(|columns|, i requires 0 <= i < |columns| => columns[i].(isPartition := true))
  }

  /** `reorder_spark_columns`. */
  function ReorderSparkColumns(columns: seq<ColumnStatus>, partitionColumns: seq<string>): Result<seq<ColumnStatus>> {
    if partitionColumns == [] then Ok(columns)
    else if !DistinctLower(NamesOf(columns, StatusName)) then Err(External)
    else
      var r := Route(columns, StatusName, BuildLookup(partitionColumns));
      if r.unmatched.Keys == {} then Ok(r.regular + MarkPartition(r.partition)) else Err(External)
  }

  function SchemaStatus(f: FieldSchema, isPartition: bool): Result<ColumnStatus> {
    if f.name.None? then Err(External)
    else
      var t :- Parse(Hive, if f.typeText.Some? then f.typeText.value else "string");
      Ok(ColumnStatus(f.name.value, t, true, f.comment, None, None, isPartition, false, false))
  }

  function SchemaStatuses(schemas: seq<FieldSchema>, isPartition: bool): Result<seq<ColumnStatus>> {
    if schemas == [] then Ok([])
    else
      var first :- SchemaStatus(schemas[0], isPartition);
      var rest :- SchemaStatuses(schemas[1..], isPartition);
      Ok([first] + rest)
  }

  function OrNone<T>(items: Option<seq<T>>): seq<T> {
    if items.Some? then items.value else []
  }

  function ColumnsFromHms(table: Table): Result<seq<ColumnStatus>> {
    var regular :- SchemaStatuses(if table.sd.Some? then OrNone(table.sd.value.cols) else [], false);
    var partition :- SchemaStatuses(OrNone(table.partitionKeys), true);
    Ok(regular + partition)
  }

  function StatusColumns(codec: TextCodec, table: Table): Result<seq<ColumnStatus>> {
    var spark :- ColumnsFromSpark(codec, table.parameters);
    if spark.Some? then ReorderSparkColumns(spark.value, FieldNames(OrNone(table.partitionKeys)))
    else ColumnsFromHms(table)
  }

  function ProviderFormat(parameters: Option<map<string, string>>): Option<string> {
    match GetProperty(parameters, PROVIDER_KEY)
    case None => None
    case Some(provider) =>
      var p := ToLower(Trim(provider));
      Some(if p == "deltalake" then "delta" else p)
  }

  predicate Contains(haystack: string, needle: string) {
    exists i :: 0 <= i <= |haystack| && StartsWith(haystack[i..], needle)
  }

  /** The format guessed from the storage classes when no provider is recorded. */
  function DetectFormat(sd: Option<Storage>): string {
    var library := if sd.Some? && sd.value.serde.Some? && sd.value.serde.value.library.Some?
                   then sd.value.serde.value.library.value else "";
    var input := if sd.Some? && sd.value.inputFormat.Some? then sd.value.inputFormat.value else "";
    var output := if sd.Some? && sd.value.outputFormat.Some? then sd.value.outputFormat.value else "";
    var h := library + " " + input + " " + output;
    if Contains(h, "Parquet") || Contains(h, "parquet") then "parquet"
    else if Contains(h, "JsonSerDe") || Contains(h, "json") then "json"
    else if Contains(h, "Orc") || Contains(h, "orc") then "orc"
    else if Contains(h, "Avro") || Contains(h, "avro") then "avro"
    else if Contains(h, "OpenCSVSerde") then "csv"
    else if Contains(h, "LazySimpleSerDe") || Contains(h, "LazySimpleSerde") || Contains(h, "TextInputFormat")
    then "textfile"
    else "unknown"
  }

  function StatusFormat(table: Table): string {
    match ProviderFormat(table.parameters)
    case Some(format) => format
    case None => DetectFormat(table.sd)
  }

  /** `table_to_status`. */
  function TableToStatus(codec: TextCodec, catalog: string, database: seq<string>, table: Table): Result<TableStatus> {
    if table.tableName.None? then Err(External)
    else
      var columns :- StatusColumns(codec, table);
      Ok(TableStatus(catalog, database, table.tableName.value, columns,
                     GetProperty(table.parameters, COMMENT_KEY),
                     if table.sd.Some? then table.sd.value.location else None,
                     StatusFormat(table),
                     FieldNames(OrNone(table.partitionKeys)),
                     VisibleProperties(table.parameters),
                     table.tableType == Some(EXTERNAL_TABLE_TYPE)))
  }
}
