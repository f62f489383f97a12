/**
When an altered column type shows.

The Metastore catalog writes it into the column list of the stored definition, and reads
that list only for tables that carry no Spark schema.
*/
module HmsVisible {
  import opened Arrow
  import opened Text
  import opened Json
  import opened HiveSyntax
  import opened LargeProperty
  import opened PartitionColumns
  import opened HmsTable
  import opened SparkKeys
  import opened HmsAlter
  import opened HmsCreateRead
  import opened HmsLifecycle
  import opened HmsFallback
  import H = HiveRoundTrip
  import X = HiveExact

  /** No schema text, whole or in parts, is among the parameters. */
  predicate NoSchema(table: Table) {
    ReadProp(table.parameters, SCHEMA_KEY) == Ok(None)
  }

  function RegularOf(table: Table): seq<FieldSchema> {
    if table.sd.Some? then OrNone(table.sd.value.cols) else []
  }

  // The report, column by column

  lemma {:induction false} StatusesAt(schemas: seq<FieldSchema>, isPartition: bool, i: nat)
    requires SchemaStatuses(schemas, isPartition).Ok? && i < |schemas|
    ensures var r := SchemaStatuses(schemas, isPartition).value;
            |r| == |schemas| && SchemaStatus(schemas[i], isPartition) == Ok(r[i])
    decreases |schemas|
  {
    if |schemas| > 1 {
      StatusesAt(schemas[1..], isPartition, if i == 0 then 0 else i - 1);
    } else {
      assert SchemaStatuses(schemas[1..], isPartition) == Ok([]);
    }
  }

  /** Replacing one stored column replaces one reported column. */
  lemma {:induction false} StatusesUpdate(schemas: seq<FieldSchema>, isPartition: bool, i: nat, changed: FieldSchema)
    requires SchemaStatuses(schemas, isPartition).Ok? && i < |schemas|
    ensures var before := SchemaStatuses(schemas, isPartition).value;
            && |before| == |schemas|
            && SchemaStatuses(schemas[i := changed], isPartition) ==
               match SchemaStatus(changed, isPartition)
               case Err(e) => Err(e)
               case Ok(c) => Ok(before[i := c])
    decreases |schemas|
  {
    StatusesSize(schemas, isPartition);
    var updated := schemas[i := changed];
    var before, c := SchemaStatuses(schemas, isPartition).value, SchemaStatus(changed, isPartition);
    assert before == [before[0]] + SchemaStatuses(schemas[1..], isPartition).value;
    if i == 0 {
      assert updated[0] == changed && updated[1..] == schemas[1..];
      if c.Ok? {
        assert [c.value] + before[1..] == before[i := c.value];
      }
    } else {
      assert updated[1..] == schemas[1..][i - 1 := changed];
      StatusesUpdate(schemas[1..], isPartition, i - 1, changed);
      if c.Ok? {
        assert [before[0]] + before[1..][i - 1 := c.value] == before[i := c.value];
      }
    }
  }

  lemma RetypedColumn(f: FieldSchema, t: DataType, isPartition: bool)
    requires Print(Hive, t).Ok? && SchemaStatus(f, isPartition).Ok?
    ensures var c := SchemaStatus(f, isPartition).value;
            SchemaStatus(f.(typeText := Some(Print(Hive, t).value)), isPartition) ==
            match Parse(Hive, Print(Hive, t).value)
            case Err(e) => Err(e)
            case Ok(u) => Ok(c.(dataType := u))
  {
  }

  // One alteration

  /** The columns reported after an accepted change of a column type, on a table without a Spark schema. */
  lemma RetypedReport(table: Table, name: string, t: DataType)
    requires ApplyAlter(table, AlterColumnType([name], t)).result.Ok? && ColumnsFromHms(table).Ok?
    ensures var after := ApplyAlter(table, AlterColumnType([name], t)).table;
            var at := FindColumn(RegularOf(table), name);
            var report := ColumnsFromHms(table).value;
            && at.Some? && at.value < |report|
            && ColumnsFromHms(after) ==
               match Parse(Hive, Print(Hive, t).value)
               case Err(e) => Err(e)
               case Ok(u) => Ok(report[at.value := report[at.value].(dataType := u)])
  {
    var after := ApplyAlter(table, AlterColumnType([name], t)).table;
    var cols := RegularOf(table);
    var i := FindColumn(cols, name).value;
    var changed := cols[i].(typeText := Some(Print(Hive, t).value));
    assert RegularOf(after) == cols[i := changed];
    StatusesAt(cols, false, i);
    StatusesUpdate(cols, false, i, changed);
    RetypedColumn(cols[i], t, false);
    var regular, partition := SchemaStatuses(cols, false).value, SchemaStatuses(OrNone(table.partitionKeys), true).value;
    if Parse(Hive, Print(Hive, t).value).Ok? {
      UpdateFront(regular, i, regular[i].(dataType := Parse(Hive, Print(Hive, t).value).value), partition);
    }
  }

  lemma UpdateFront<T>(front: seq<T>, i: nat, c: T, back: seq<T>)
    requires i < |front|
    ensures front[i := c] + back == (front + back)[i := c]
  {
  }

  lemma UpdateInjective<T>(s: seq<T>, i: nat, a: T, b: T)
    requires i < |s|
    ensures s[i := a] == s[i := b] <==> a == b
  {
    assert s[i := a][i] == a && s[i := b][i] == b;
  }

  lemma RetypedExactly(table: Table, name: string, t: DataType)
    requires ApplyAlter(table, AlterColumnType([name], t)).result.Ok? && ColumnsFromHms(table).Ok?
    ensures var after := ApplyAlter(table, AlterColumnType([name], t)).table;
            var at := FindColumn(RegularOf(table), name);
            var report := ColumnsFromHms(table).value;
            && at.Some? && at.value < |report|
            && (ColumnsFromHms(after) == Ok(report[at.value := report[at.value].(dataType := H.Normal(Hive, t))])
                <==> H.TameNames(Hive, t))
  {
    RetypedReport(table, name, t);
    X.HiveReadsBackExactly(t);
    var report, i := ColumnsFromHms(table).value, FindColumn(RegularOf(table), name).value;
    var r := Parse(Hive, Print(Hive, t).value);
    if r.Ok? {
      UpdateInjective(report, i, report[i].(dataType := r.value), report[i].(dataType := H.Normal(Hive, t)));
    }
  }

  lemma AlterKeepsSchema(table: Table, options: AlterOptions)
    ensures var after := ApplyAlter(table, options).table;
            ReadProp(after.parameters, SCHEMA_KEY) == ReadProp(table.parameters, SCHEMA_KEY)
  {
    AlterKeepsReserved(table, options);
    ReadSchemaAgrees(ApplyAlter(table, options).table.parameters, table.parameters);
  }

  lemma SchemaHidesColumns(codec: TextCodec, before: Table, after: Table)
    requires ReadProp(after.parameters, SCHEMA_KEY) == ReadProp(before.parameters, SCHEMA_KEY) != Ok(None)
    requires after.partitionKeys == before.partitionKeys
    ensures StatusColumns(codec, after) == StatusColumns(codec, before)
  {
  }

  /**
  What a reader sees of an accepted and stored change of a column type. With a Spark schema,
  nothing. Without one, every other column as before and the first column of that name with
  the new type in Hive normal form, if and only if the new type's names are tame.
  */
  lemma AlterVisibleExactly(codec: TextCodec, table: Table, name: string, t: DataType)
    requires ApplyAlter(table, AlterColumnType([name], t)).result.Ok?
    requires NoSchema(table) ==> ColumnsFromHms(table).Ok?
    ensures var after := ApplyAlter(table, AlterColumnType([name], t)).table;
            && (!NoSchema(table) ==> StatusColumns(codec, after) == StatusColumns(codec, table))
            && (NoSchema(table) ==>
                  var at := FindColumn(RegularOf(table), name);
                  var report := ColumnsFromHms(table).value;
                  && StatusColumns(codec, table) == Ok(report)
                  && at.Some? && at.value < |report|
                  && (StatusColumns(codec, after)
                      == Ok(report[at.value := report[at.value].(dataType := H.Normal(Hive, t))])
                      <==> H.TameNames(Hive, t)))
  {
    var after := ApplyAlter(table, AlterColumnType([name], t)).table;
    AlterKeepsSchema(table, AlterColumnType([name], t));
    AlterKeepsReserved(table, AlterColumnType([name], t));
    if NoSchema(table) {
      ColumnsWithoutSpark(codec, table);
      ColumnsWithoutSpark(codec, after);
      RetypedExactly(table, name, t);
    } else {
      SchemaHidesColumns(codec, table, after);
    }
  }

  /** So a change to a type that differs from the reported one shows if and only if there is no Spark schema. */
  lemma TypeChangeShows(codec: TextCodec, table: Table, name: string, t: DataType)
    requires ApplyAlter(table, AlterColumnType([name], t)).result.Ok? && H.TameNames(Hive, t)
    requires NoSchema(table) ==>
               && ColumnsFromHms(table).Ok?
               && var at := FindColumn(RegularOf(table), name);
                  at.Some? ==> at.value < |ColumnsFromHms(table).value|
                               && ColumnsFromHms(table).value[at.value].dataType != H.Normal(Hive, t)
    ensures StatusColumns(codec, ApplyAlter(table, AlterColumnType([name], t)).table) != StatusColumns(codec, table)
            <==> NoSchema(table)
  {
    AlterVisibleExactly(codec, table, name, t);
    if NoSchema(table) {
      var report := ColumnsFromHms(table).value;
      var i := FindColumn(RegularOf(table), name).value;
      var changed := report[i].(dataType := H.Normal(Hive, t));
      assert report[i := changed][i] == changed != report[i];
    }
  }

  // Whole runs

  /** The first of the regular columns reported under a name. */
  function FirstReported(report: seq<ColumnStatus>, regular: nat, name: string): (r: Option<nat>)
    requires regular <= |report|
    ensures r.Some? ==> r.value < regular && report[r.value].name == name
    ensures r.Some? ==> forall i :: 0 <= i < r.value ==> report[i].name != name
    ensures r.None? ==> forall i :: 0 <= i < regular ==> report[i].name != name
  {
    if regular == 0 then None
    else
      match FirstReported(report, regular - 1, name)
      case Some(i) => Some(i)
      case None => if report[regular - 1].name == name then Some(regular - 1) else None
  }

  /** What one call does to the report, said without the table. */
  function ReportStep(report: seq<ColumnStatus>, regular: nat, call: Call): (r: seq<ColumnStatus>)
    requires regular <= |report|
    ensures |r| == |report|
  {
    match call.options
    case AlterColumnType(path, t) =>
      if !call.stored || |path| != 1 || Print(Hive, t).Err? then report
      else
        (match FirstReported(report, regular, path[0])
         case None => report
         case Some(i) => report[i := report[i].(dataType := H.Normal(Hive, t))])
    case _ => report
  }

  function ReportAfter(report: seq<ColumnStatus>, regular: nat, calls: seq<Call>): seq<ColumnStatus>
    requires regular <= |report|
    decreases |calls|
  {
    if calls == [] then report else ReportAfter(ReportStep(report, regular, calls[0]), regular, calls[1..])
  }

  predicate TameCall(call: Call) {
    call.options.AlterColumnType? ==> H.TameNames(Hive, call.options.dataType)
  }

  lemma FoundReported(table: Table, name: string)
    requires ColumnsFromHms(table).Ok?
    ensures |RegularOf(table)| <= |ColumnsFromHms(table).value|
    ensures FirstReported(ColumnsFromHms(table).value, |RegularOf(table)|, name) == FindColumn(RegularOf(table), name)
  {
    var cols, report := RegularOf(table), ColumnsFromHms(table).value;
    StatusesSize(cols, false);
    forall i | 0 <= i < |cols|
      ensures cols[i].name == Some(report[i].name)
    {
      StatusesAt(cols, false, i);
    }
    var a, b := FirstReported(report, |cols|, name), FindColumn(cols, name);
    if a.Some? && b.Some? {
      assert cols[a.value].name == Some(name) && report[b.value].name == name;
    }
  }

  lemma OtherCallKeepsColumns(table: Table, call: Call)
    requires !call.options.AlterColumnType? || |call.options.path| != 1
    ensures ColumnsFromHms(AfterCall(table, call)) == ColumnsFromHms(table)
    ensures RegularOf(AfterCall(table, call)) == RegularOf(table)
  {
  }

  lemma StepReports(table: Table, call: Call)
    requires ColumnsFromHms(table).Ok? && TameCall(call)
    ensures |RegularOf(AfterCall(table, call))| == |RegularOf(table)| <= |ColumnsFromHms(table).value|
    ensures ColumnsFromHms(AfterCall(table, call))
            == Ok(ReportStep(ColumnsFromHms(table).value, |RegularOf(table)|, call))
  {
    StatusesSize(RegularOf(table), false);
    if !call.options.AlterColumnType? || |call.options.path| != 1 {
      OtherCallKeepsColumns(table, call);
      return;
    }
    var name, t := call.options.path[0], call.options.dataType;
    assert call.options == AlterColumnType([name], t);
    FoundReported(table, name);
    if ApplyAlter(table, call.options).result.Ok? {
      RetypedReport(table, name, t);
      H.HiveParseInvertsPrint(t);
    }
  }

  lemma {:induction false} RunReports(table: Table, calls: seq<Call>)
    requires ColumnsFromHms(table).Ok? && forall i :: 0 <= i < |calls| ==> TameCall(calls[i])
    ensures |RegularOf(table)| <= |ColumnsFromHms(table).value|
    ensures ColumnsFromHms(Run(table, calls))
            == Ok(ReportAfter(ColumnsFromHms(table).value, |RegularOf(table)|, calls))
    decreases |calls|
  {
    StatusesSize(RegularOf(table), false);
    if calls != [] {
      StepReports(table, calls[0]);
      RunReports(AfterCall(table, calls[0]), calls[1..]);
    }
  }

  // The whole status

  /** The storage descriptor without its column list. */
  function StorageOf(table: Table): Option<Storage> {
    if table.sd.None? then None else Some(table.sd.value.(cols := None))
  }

  lemma {:induction false} RunKeepsStorage(table: Table, calls: seq<Call>)
    ensures StorageOf(Run(table, calls)) == StorageOf(table)
    decreases |calls|
  {
    if calls != [] {
      RunKeepsStorage(AfterCall(table, calls[0]), calls[1..]);
    }
  }

  lemma RunKeepsFormat(table: Table, calls: seq<Call>)
    ensures StatusFormat(Run(table, calls)) == StatusFormat(table)
    ensures LocationOf(Run(table, calls)) == LocationOf(table)
  {
    RunKeepsStorage(table, calls);
    RunKeepsReserved(table, calls);
    FixedKeyFamilies();
    var after := Run(table, calls);
    assert GetProperty(after.parameters, PROVIDER_KEY) == GetProperty(table.parameters, PROVIDER_KEY);
    FormatDependsOnStorage(after.sd, table.sd);
  }

  lemma FormatDependsOnStorage(a: Option<Storage>, b: Option<Storage>)
    requires a.None? == b.None? && (a.Some? ==> a.value.(cols := None) == b.value.(cols := None))
    ensures DetectFormat(a) == DetectFormat(b)
  {
    if a.Some? {
      assert a.value.(cols := None).serde == a.value.serde;
      assert a.value.serde == b.value.serde && a.value.inputFormat == b.value.inputFormat;
    }
  }

  /** The columns a reader sees after a run, for every table that could be read before it. */
  function ColumnsAfter(table: Table, report: seq<ColumnStatus>, calls: seq<Call>): seq<ColumnStatus> {
    if NoSchema(table) && |RegularOf(table)| <= |report| then ReportAfter(report, |RegularOf(table)|, calls) else report
  }

  lemma RunColumns(codec: TextCodec, table: Table, calls: seq<Call>)
    requires StatusColumns(codec, table).Ok?
    requires NoSchema(table) ==> forall i :: 0 <= i < |calls| ==> TameCall(calls[i])
    ensures StatusColumns(codec, Run(table, calls))
            == Ok(ColumnsAfter(table, StatusColumns(codec, table).value, calls))
  {
    var after := Run(table, calls);
    RunKeepsReserved(table, calls);
    ReadSchemaAgrees(after.parameters, table.parameters);
    if NoSchema(table) {
      ColumnsWithoutSpark(codec, table);
      ColumnsWithoutSpark(codec, after);
      RunReports(table, calls);
    } else {
      SchemaHidesColumns(codec, table, after);
    }
  }

  /**
  Any readable table and any run of alterations, new types having tame names where they can
  show. The read still succeeds. Name, format, partitioning and location are as before, the
  properties are those of the run, and the columns are as before if the table carries a Spark
  schema, else with the stored type changes applied.
  */
  lemma RunStatus(codec: TextCodec, catalog: string, database: seq<string>, table: Table, calls: seq<Call>)
    requires TableToStatus(codec, catalog, database, table).Ok?
    requires NoSchema(table) ==> forall i :: 0 <= i < |calls| ==> TameCall(calls[i])
    ensures var before := TableToStatus(codec, catalog, database, table).value;
            var shown := ShownAfter(before.properties, calls);
            TableToStatus(codec, catalog, database, Run(table, calls)) ==
            Ok(before.(columns := ColumnsAfter(table, before.columns, calls),
                       properties := shown, comment := GetProperty(Some(shown), COMMENT_KEY)))
  {
    var last := Run(table, calls);
    RunColumns(codec, table, calls);
    RunKeepsReserved(table, calls);
    RunKeepsFormat(table, calls);
    RunShows(table, calls);
    CommentVisible(last.parameters, VisibleProperties(last.parameters));
  }

  /** A table built without Spark metadata, altered any number of times, and read. */
  lemma BuildAlterRead(codec: TextCodec, catalog: string, database: seq<string>, db: string, name: string,
                       options: CreateOptions, parts: seq<string>, format: string, storage: StorageFormat,
                       calls: seq<Call>)
    requires BuildGenericTable(db, name, options.columns, parts, options.location, format, storage,
                               options.comment, options.properties).Ok?
    requires TameColumns(options.columns) && forall i :: 0 <= i < |calls| ==> TameCall(calls[i])
    ensures var base := BuildGenericTable(db, name, options.columns, parts, options.location, format, storage,
                                          options.comment, options.properties).value;
            var status := StatusFromHive(catalog, database, name, options, parts, format, base);
            var regular := |Route(options.columns, ColumnName, BuildLookup(parts)).regular|;
            var shown := ShownAfter(UserProperties(options), calls);
            && regular <= |status.columns|
            && TableToStatus(codec, catalog, database, Run(base, calls)) ==
               Ok(status.(columns := ReportAfter(status.columns, regular, calls),
                          properties := shown, comment := GetProperty(Some(shown), COMMENT_KEY)))
  {
    var base := BuildGenericTable(db, name, options.columns, parts, options.location, format, storage,
                                  options.comment, options.properties).value;
    ReadWithoutMetadata(codec, catalog, database, db, name, options, parts, format, storage);
    BaseParameters(db, name, options.columns, parts, options.location, format, storage, options);
    NoSchemaText(base.parameters.value);
    RouteBack(options.columns, BuildLookup(parts));
    StatusesSize(RegularOf(base), false);
    RunStatus(codec, catalog, database, base, calls);
  }
}
