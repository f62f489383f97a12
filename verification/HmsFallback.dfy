/** Reading a Hive Metastore table that carries no Spark metadata, as another engine would leave it. */
module HmsFallback {
  import opened Arrow
  import opened Text
  import opened Json
  import opened HiveSyntax
  import opened LargeProperty
  import opened PartitionColumns
  import opened HmsTable
  import opened SparkKeys
  import opened HmsCreateRead
  import H = HiveRoundTrip
  import X = HiveExact

  /** A column as the Hive type string tells it: its type in Hive normal form, always nullable. */
  function FromHive(c: Column, isPartition: bool): ColumnStatus {
    ColumnStatus(c.name, H.Normal(Hive, c.dataType), true, c.comment, None, None, isPartition, false, false)
  }

  function AllFromHive(columns: seq<Column>, isPartition: bool): (r: seq<ColumnStatus>)
    ensures |r| == |columns|
    ensures forall i :: 0 <= i < |columns| ==> r[i] == FromHive(columns[i], isPartition)
  {
    seq(|columns|, i requires 0 <= i < |columns| => FromHive(columns[i], isPartition))
  }

  predicate TameColumns(columns: seq<Column>) {
    forall i :: 0 <= i < |columns| ==> H.TameNames(Hive, columns[i].dataType)
  }

  lemma SchemaBack(c: Column, isPartition: bool)
    requires ColumnToSchema(c).Ok? && H.TameNames(Hive, c.dataType)
    ensures SchemaStatus(ColumnToSchema(c).value, isPartition) == Ok(FromHive(c, isPartition))
  {
    H.HiveParseInvertsPrint(c.dataType);
  }

  lemma StatusesCons(first: FieldSchema, rest: seq<FieldSchema>, c: Column, more: seq<Column>, isPartition: bool)
    requires SchemaStatus(first, isPartition) == Ok(FromHive(c, isPartition))
    requires SchemaStatuses(rest, isPartition) == Ok(AllFromHive(more, isPartition))
    ensures SchemaStatuses([first] + rest, isPartition) == Ok(AllFromHive([c] + more, isPartition))
  {
    assert ([first] + rest)[1..] == rest;
    assert AllFromHive([c] + more, isPartition) == [FromHive(c, isPartition)] + AllFromHive(more, isPartition);
  }

  /** Routing the printed columns and reading them back is routing the columns. */
  lemma {:induction false} RouteBack(columns: seq<Column>, lookup: map<string, string>)
    requires ColumnsToSchemas(columns).Ok? && TameColumns(columns)
    ensures var r := Route(ColumnsToSchemas(columns).value, SchemaName, lookup);
            var q := Route(columns, ColumnName, lookup);
            && SchemaStatuses(r.regular, false) == Ok(AllFromHive(q.regular, false))
            && SchemaStatuses(r.partition, true) == Ok(AllFromHive(q.partition, true))
  {
    if columns != [] {
      var schemas := ColumnsToSchemas(columns).value;
      var key := ToLower(columns[0].name);
      var next := if key in lookup then lookup - {key} else lookup;
      assert schemas[1..] == ColumnsToSchemas(columns[1..]).value;
      RouteBack(columns[1..], next);
      var r := Route(schemas[1..], SchemaName, next);
      var q := Route(columns[1..], ColumnName, next);
      if key in lookup {
        SchemaBack(columns[0], true);
        StatusesCons(schemas[0], r.partition, columns[0], q.partition, true);
      } else {
        SchemaBack(columns[0], false);
        StatusesCons(schemas[0], r.regular, columns[0], q.regular, false);
      }
    }
  }

  lemma NamesCons(first: FieldSchema, rest: seq<FieldSchema>, c: Column, more: seq<Column>)
    requires SchemaName(first) == c.name && NamesOf(rest, SchemaName) == NamesOf(more, ColumnName)
    ensures NamesOf([first] + rest, SchemaName) == NamesOf([c] + more, ColumnName)
  {
    assert NamesOf([first] + rest, SchemaName) == [c.name] + NamesOf(rest, SchemaName);
    assert NamesOf([c] + more, ColumnName) == [c.name] + NamesOf(more, ColumnName);
  }

  lemma {:induction false} StatusesSize(schemas: seq<FieldSchema>, isPartition: bool)
    requires SchemaStatuses(schemas, isPartition).Ok?
    ensures |SchemaStatuses(schemas, isPartition).value| == |schemas|
    decreases |schemas|
  {
    if schemas != [] {
      StatusesSize(schemas[1..], isPartition);
    }
  }

  lemma {:induction false} StatusesTail(schemas: seq<FieldSchema>, columns: seq<Column>, isPartition: bool)
    requires schemas != [] && columns != []
    requires SchemaStatuses(schemas, isPartition) == Ok(AllFromHive(columns, isPartition))
    ensures SchemaStatus(schemas[0], isPartition) == Ok(FromHive(columns[0], isPartition))
    ensures SchemaStatuses(schemas[1..], isPartition) == Ok(AllFromHive(columns[1..], isPartition))
  {
    var all := AllFromHive(columns, isPartition);
    var rest := SchemaStatuses(schemas[1..], isPartition).value;
    assert all == [SchemaStatus(schemas[0], isPartition).value] + rest;
    assert all[1..] == rest && all[1..] == AllFromHive(columns[1..], isPartition);
  }

  lemma SchemaNeedsTame(c: Column, isPartition: bool)
    requires ColumnToSchema(c).Ok?
    requires SchemaStatus(ColumnToSchema(c).value, isPartition) == Ok(FromHive(c, isPartition))
    ensures H.TameNames(Hive, c.dataType)
  {
    X.HiveReadsBackExactly(c.dataType);
  }

  /** Columns that all read back as expected have tame names. */
  lemma {:induction false} RouteNeedsTame(columns: seq<Column>, lookup: map<string, string>)
    requires ColumnsToSchemas(columns).Ok?
    requires var r := Route(ColumnsToSchemas(columns).value, SchemaName, lookup);
             var q := Route(columns, ColumnName, lookup);
             && SchemaStatuses(r.regular, false) == Ok(AllFromHive(q.regular, false))
             && SchemaStatuses(r.partition, true) == Ok(AllFromHive(q.partition, true))
    ensures TameColumns(columns)
  {
    if columns != [] {
      var schemas := ColumnsToSchemas(columns).value;
      var key := ToLower(columns[0].name);
      var next := if key in lookup then lookup - {key} else lookup;
      assert schemas[1..] == ColumnsToSchemas(columns[1..]).value;
      var r, q := Route(schemas, SchemaName, lookup), Route(columns, ColumnName, lookup);
      var r', q' := Route(schemas[1..], SchemaName, next), Route(columns[1..], ColumnName, next);
      if key in lookup {
        assert r.partition[1..] == r'.partition && q.partition[1..] == q'.partition;
        StatusesTail(r.partition, q.partition, true);
        SchemaNeedsTame(columns[0], true);
      } else {
        assert r.regular[1..] == r'.regular && q.regular[1..] == q'.regular;
        StatusesTail(r.regular, q.regular, false);
        SchemaNeedsTame(columns[0], false);
      }
      RouteNeedsTame(columns[1..], next);
    }
  }

  lemma {:induction false} RouteSizes(columns: seq<Column>, lookup: map<string, string>)
    requires ColumnsToSchemas(columns).Ok?
    ensures var r := Route(ColumnsToSchemas(columns).value, SchemaName, lookup);
            var q := Route(columns, ColumnName, lookup);
            && |r.regular| == |q.regular|
            && NamesOf(r.partition, SchemaName) == NamesOf(q.partition, ColumnName)
  {
    if columns != [] {
      var schemas := ColumnsToSchemas(columns).value;
      var key := ToLower(columns[0].name);
      var next := if key in lookup then lookup - {key} else lookup;
      assert schemas[1..] == ColumnsToSchemas(columns[1..]).value;
      RouteSizes(columns[1..], next);
      if key in lookup {
        NamesCons(schemas[0], Route(schemas[1..], SchemaName, next).partition,
                  columns[0], Route(columns[1..], ColumnName, next).partition);
      }
    }
  }

  /** Without Spark metadata there is no schema text to read. */
  lemma NoSchemaText(p: map<string, string>)
    requires forall k :: k in p && IsReserved(k) ==> k == PROVIDER_KEY || k == EXTERNAL_KEY
    ensures ReadProp(Some(p), SCHEMA_KEY) == Ok(None)
  {
    FixedKeyFamilies();
    CountKeyFamilies();
    assert Family(EXTERNAL_KEY) == 4;
  }

  /** Regular before partition columns, every type as the Hive type string tells it. */
  function ColumnsFromHive(columns: seq<Column>, parts: seq<string>): seq<ColumnStatus> {
    var q := Route(columns, ColumnName, BuildLookup(parts));
    AllFromHive(q.regular, false) + AllFromHive(q.partition, true)
  }

  function StatusFromHive(catalog: string, database: seq<string>, name: string, options: CreateOptions,
                          parts: seq<string>, format: string, base: Table): TableStatus
  {
    TableStatus(catalog, database, name, ColumnsFromHive(options.columns, parts),
                GetProperty(Some(UserProperties(options)), COMMENT_KEY), options.location,
                if ToLower(format) == "delta" then "delta" else DetectFormat(base.sd),
                NamesOf(Route(options.columns, ColumnName, BuildLookup(parts)).partition, ColumnName),
                UserProperties(options), true)
  }

  lemma BuiltColumns(table: Table, columns: seq<Column>, parts: seq<string>)
    requires BuildColumns(columns, parts).Ok?
    requires var built := BuildColumns(columns, parts).value;
             && table.sd.Some? && table.sd.value.cols == Some(built.0)
             && OrNone(table.partitionKeys) == built.1
    ensures ColumnsFromHms(table) == Ok(ColumnsFromHive(columns, parts)) <==> TameColumns(columns)
  {
    var lookup := BuildLookup(parts);
    var r, q := Route(ColumnsToSchemas(columns).value, SchemaName, lookup), Route(columns, ColumnName, lookup);
    if TameColumns(columns) {
      RouteBack(columns, lookup);
    } else if ColumnsFromHms(table) == Ok(ColumnsFromHive(columns, parts)) {
      RouteSizes(columns, lookup);
      var a, b := SchemaStatuses(r.regular, false).value, SchemaStatuses(r.partition, true).value;
      StatusesSize(r.regular, false);
      SplitSame(a, b, AllFromHive(q.regular, false), AllFromHive(q.partition, true));
      RouteNeedsTame(columns, lookup);
    }
  }

  lemma SplitSame<T>(a: seq<T>, b: seq<T>, c: seq<T>, d: seq<T>)
    requires a + b == c + d && |a| == |c|
    ensures a == c && b == d
  {
    assert a == (a + b)[..|a|] && c == (c + d)[..|c|];
    assert b == (a + b)[|a|..] && d == (c + d)[|c|..];
  }

  /**
  A built table read back before any metadata was injected, names that collide ignoring case
  included. The reader sees regular before partition columns, every type in Hive normal form
  and nullable, the user's properties, and the format of the recorded provider or else the
  one the storage classes suggest, if and only if the nested names of all columns are tame.
  */
  lemma ReadWithoutMetadata(codec: TextCodec, catalog: string, database: seq<string>, db: string, name: string,
                            options: CreateOptions, parts: seq<string>, format: string, storage: StorageFormat)
    requires BuildGenericTable(db, name, options.columns, parts, options.location, format, storage,
                               options.comment, options.properties).Ok?
    ensures var base := BuildGenericTable(db, name, options.columns, parts, options.location, format, storage,
                                          options.comment, options.properties).value;
            TableToStatus(codec, catalog, database, base)
            == Ok(StatusFromHive(catalog, database, name, options, parts, format, base))
            <==> TameColumns(options.columns)
  {
    var columns := options.columns;
    var base := BuildGenericTable(db, name, columns, parts, options.location, format, storage,
                                  options.comment, options.properties).value;
    var r := Route(ColumnsToSchemas(columns).value, SchemaName, BuildLookup(parts));
    BaseParameters(db, name, columns, parts, options.location, format, storage, options);
    NoSchemaText(base.parameters.value);
    CommentVisible(base.parameters, UserProperties(options));
    RouteNamed(ColumnsToSchemas(columns).value, BuildLookup(parts));
    FieldNamesOfNamed(r.partition);
    RouteSizes(columns, BuildLookup(parts));
    assert OrNone(base.partitionKeys) == r.partition;
    FormatWithoutSpark(base, format);
    ColumnsWithoutSpark(codec, base);
    BuiltColumns(base, columns, parts);
  }

  lemma FormatWithoutSpark(table: Table, format: string)
    requires GetProperty(table.parameters, PROVIDER_KEY) == if ToLower(format) == "delta" then Some("delta") else None
    ensures StatusFormat(table) == if ToLower(format) == "delta" then "delta" else DetectFormat(table.sd)
  {
    LowerWordText("delta");
  }

  lemma ColumnsWithoutSpark(codec: TextCodec, table: Table)
    requires ReadProp(table.parameters, SCHEMA_KEY) == Ok(None)
    ensures StatusColumns(codec, table) == ColumnsFromHms(table)
  {
  }
}
