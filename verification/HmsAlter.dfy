/** Altering a Hive Metastore table in place. */
module HmsAlter {
  import opened Arrow
  import opened Text
  import opened Json
  import opened HiveSyntax
  import opened LargeProperty
  import opened PartitionColumns
  import opened HmsTable
  import opened SparkKeys
  import SparkSchema

  datatype AlterOptions =
    | SetProperties(properties: seq<(string, string)>)
    | UnsetProperties(keys: seq<string>, ifExists: bool)
    | AlterColumnType(path: seq<string>, dataType: DataType)
    | AddColumns
    | DropColumns
    | RenameColumn
    | RenameTable

  /** A table definition, and whether the change to it succeeded. */
  datatype Altered = Altered(table: Table, result: Result<()>)

  /** Removing keys one by one; a missing key stops the removal unless missing keys are allowed. */
  function RemoveKeys(m: map<string, string>, keys: seq<string>, ifExists: bool): (map<string, string>, bool) {
    if keys == [] then (m, true)
    else if ifExists || keys[0] in m then RemoveKeys(m - {keys[0]}, keys[1..], ifExists)
    else (m, false)
  }

  /** The position of the first column of a given name. */
  function FindColumn(cols: seq<FieldSchema>, name: string): (r: Option<nat>)
    ensures r.Some? ==> r.value < |cols| && cols[r.value].name == Some(name)
    ensures r.Some? ==> forall i :: 0 <= i < r.value ==> cols[i].name != Some(name)
    ensures r.None? ==> forall i :: 0 <= i < |cols| ==> cols[i].name != Some(name)
  {
    if cols == [] then None
    else if cols[0].name == Some(name) then Some(0)
    else
      match FindColumn(cols[1..], name)
      case None => None
      case Some(i) => Some(i + 1)
  }

  /** `apply_alter_table_options`: what happens to the definition in place, also when it fails halfway. */
  function ApplyAlter(table: Table, options: AlterOptions): Altered {
    match options
    case SetProperties(properties) =>
      if !NoReserved(properties) then Altered(table, Err(InvalidArgument))
      else Altered(table.(parameters := Some(InsertAll(OrEmpty(table.parameters), properties))), Ok(()))
    case UnsetProperties(keys, ifExists) =>
      if exists i :: 0 <= i < |keys| && IsReserved(keys[i]) then Altered(table, Err(InvalidArgument))
      else
        var r := RemoveKeys(OrEmpty(table.parameters), keys, ifExists);
        Altered(table.(parameters := Some(r.0)), if r.1 then Ok(()) else Err(InvalidArgument))
    case AlterColumnType(path, dataType) =>
      if |path| != 1 then Altered(table, Err(NotSupported))
      else
        (match Print(Hive, dataType)
         case Err(e) => Altered(table, Err(e))
         case Ok(text) =>
           if table.sd.None? || table.sd.value.cols.None? then Altered(table, Err(External))
           else
             var cols := table.sd.value.cols.value;
             match FindColumn(cols, path[0])
             case None => Altered(table, Err(InvalidArgument))
             case Some(i) =>
               var changed := cols[i := cols[i].(typeText := Some(text))];
               Altered(table.(sd := Some(table.sd.value.(cols := Some(changed)))), Ok(())))
    case _ => Altered(table, Err(NotSupported))
  }

  /** A table definition under construction or alteration. */
  class TableDefinition {
    const dbName: Option<string>
    const tableName: Option<string>
    const tableType: Option<string>
    const partitionKeys: Option<seq<FieldSchema>>
    var sd: Option<Storage>
    var parameters: Option<map<string, string>>

    function Value(): Table
      reads this
    {
      Table(dbName, tableName, tableType, sd, partitionKeys, parameters)
    }

    constructor (table: Table)
      ensures Value() == table
    {
      dbName, tableName, tableType := table.dbName, table.tableName, table.tableType;
      partitionKeys, sd, parameters := table.partitionKeys, table.sd, table.parameters;
    }

    /** Inserts pairs into the parameters, in order. */
    method Insert(pairs: seq<(string, string)>)
      modifies this`parameters
      ensures parameters == Some(InsertAll(OrEmpty(old(parameters)), pairs))
    {
      var m := if parameters.Some? then parameters.value else map[];
      ghost var all := InsertAll(m, pairs);
      var i := 0;
      assert pairs[0..] == pairs;
      while i < |pairs|
        invariant 0 <= i <= |pairs|
        invariant InsertAll(m, pairs[i..]) == all
      {
        assert pairs[i..][0] == pairs[i] && pairs[i..][1..] == pairs[i + 1..];
        m := m[pairs[i].0 := pairs[i].1];
        i := i + 1;
      }
      parameters := Some(m);
    }

    /** `inject_spark_metadata`, in place. */
    method InjectMetadata(codec: TextCodec, version: string, columns: seq<Column>, partitionColumns: seq<string>,
                          format: string) returns (r: Result<()>)
      modifies this`parameters
      ensures match InjectSparkMetadata(codec, version, old(Value()), columns, partitionColumns, format)
              case Err(e) => r == Err(e) && Value() == old(Value()).(parameters := Some(OrEmpty(old(parameters))))
              case Ok(table) => r == Ok(()) && Value() == table
    {
      if parameters.None? {
        parameters := Some(map[]);
      }
      var schema := SparkSchema.SchemaToJson(ColumnFields(columns));
      if schema.Err? {
        return Err(schema.error);
      }
      var text := codec.encode(schema.value);
      var schemaPairs := SplitLargeTableProp(SCHEMA_KEY, text, CHUNK_SIZE);
      ghost var start := OrEmpty(parameters);
      Insert(schemaPairs);
      if partitionColumns != [] {
        Insert([(NUM_PART_COLS_KEY, NatToString(|partitionColumns|))]);
        Insert(PartColPairs(partitionColumns));
      }
      Insert([(PROVIDER_KEY, format)]);
      Insert([(VERSION_KEY, "zelox-" + version)]);
      InsertSparkPairs(start, text, partitionColumns, format, version);
      return Ok(());
    }

    /** Removes keys from the parameters, one by one. */
    method Remove(keys: seq<string>, ifExists: bool) returns (ok: bool)
      modifies this`parameters
      ensures var r := RemoveKeys(OrEmpty(old(parameters)), keys, ifExists);
              parameters == Some(r.0) && ok == r.1
    {
      var m := if parameters.Some? then parameters.value else map[];
      ghost var all := RemoveKeys(m, keys, ifExists);
      var i := 0;
      assert keys[0..] == keys;
      while i < |keys|
        invariant 0 <= i <= |keys|
        invariant RemoveKeys(m, keys[i..], ifExists) == all
      {
        assert keys[i..][0] == keys[i] && keys[i..][1..] == keys[i + 1..];
        if ifExists || keys[i] in m {
          m := m - {keys[i]};
        } else {
          parameters := Some(m);
          return false;
        }
        i := i + 1;
      }
      parameters := Some(m);
      return true;
    }

    /** `apply_alter_table_options`. */
    method Apply(options: AlterOptions) returns (r: Result<()>)
      modifies this
      ensures Altered(Value(), r) == ApplyAlter(old(Value()), options)
    {
      match options
      case SetProperties(properties) =>
        if exists i :: 0 <= i < |properties| && IsReserved(properties[i].0) {
          return Err(InvalidArgument);
        }
        Insert(properties);
        return Ok(());
      case UnsetProperties(keys, ifExists) =>
        if exists i :: 0 <= i < |keys| && IsReserved(keys[i]) {
          return Err(InvalidArgument);
        }
        var ok := Remove(keys, ifExists);
        return if ok then Ok(()) else Err(InvalidArgument);
      case AlterColumnType(path, dataType) =>
        if |path| != 1 {
          return Err(NotSupported);
        }
        var text := Print(Hive, dataType);
        if text.Err? {
          return Err(text.error);
        }
        if sd.None? || sd.value.cols.None? {
          return Err(External);
        }
        var cols := sd.value.cols.value;
        var at := FindColumn(cols, path[0]);
        if at.None? {
          return Err(InvalidArgument);
        }
        var changed := cols[at.value := cols[at.value].(typeText := Some(text.value))];
        sd := Some(sd.value.(cols := Some(changed)));
        return Ok(());
      case _ =>
        return Err(NotSupported);
    }
  }

  lemma {:induction false} InsertAllConcat(m: map<string, string>, a: seq<(string, string)>, b: seq<(string, string)>)
    ensures InsertAll(m, a + b) == InsertAll(InsertAll(m, a), b)
    decreases |a|
  {
    if a == [] {
      assert a + b == b;
    } else {
      assert (a + b)[1..] == a[1..] + b;
      InsertAllConcat(m[a[0].0 := a[0].1], a[1..], b);
    }
  }

  /** Inserting group by group is inserting the whole list. */
  lemma InsertSparkPairs(m: map<string, string>, text: string, parts: seq<string>, format: string, version: string)
    ensures var a := InsertAll(m, SplitPairs(SCHEMA_KEY, text, CHUNK_SIZE));
            var b := if parts == [] then a
                     else InsertAll(InsertAll(a, [(NUM_PART_COLS_KEY, NatToString(|parts|))]), PartColPairs(parts));
            var c := InsertAll(b, [(PROVIDER_KEY, format)]);
            InsertAll(c, [(VERSION_KEY, "zelox-" + version)]) ==
            InsertAll(m, SparkPairs(text, parts, format, version))
  {
    var a, b := SplitPairs(SCHEMA_KEY, text, CHUNK_SIZE), PartitionPairs(parts);
    var c, d := [(PROVIDER_KEY, format)], [(VERSION_KEY, "zelox-" + version)];
    if parts != [] {
      InsertAllConcat(InsertAll(m, a), [(NUM_PART_COLS_KEY, NatToString(|parts|))], PartColPairs(parts));
    }
    InsertAllConcat(m, a, b);
    InsertAllConcat(InsertAll(m, a + b), c, d);
    InsertAllConcat(m, a + b, c + d);
    assert SparkPairs(text, parts, format, version) == a + b + (c + d);
  }

  // What no alteration changes

  /** Two parameter maps that agree on every reserved key. */
  ghost predicate SameReserved(p: Option<map<string, string>>, q: Option<map<string, string>>) {
    forall k :: IsReserved(k) ==> GetProperty(p, k) == GetProperty(q, k)
  }

  lemma {:induction false} RemoveKeysKeeps(m: map<string, string>, keys: seq<string>, ifExists: bool, k: string)
    requires k !in keys
    ensures var r := RemoveKeys(m, keys, ifExists).0; (k in r <==> k in m) && (k in r ==> r[k] == m[k])
    decreases |keys|
  {
    if keys != [] && (ifExists || keys[0] in m) {
      RemoveKeysKeeps(m - {keys[0]}, keys[1..], ifExists, k);
    }
  }

  /** One alteration, successful or failed, in place: reserved parameters, partition keys and names stay. */
  lemma AlterKeepsReserved(table: Table, options: AlterOptions)
    ensures var after := ApplyAlter(table, options).table;
            && SameReserved(after.parameters, table.parameters)
            && after.partitionKeys == table.partitionKeys
            && after.tableName == table.tableName
            && after.tableType == table.tableType
  {
    var after := ApplyAlter(table, options).table;
    forall k | IsReserved(k)
      ensures GetProperty(after.parameters, k) == GetProperty(table.parameters, k)
    {
      match options
      case SetProperties(properties) =>
        if NoReserved(properties) {
          assert !HasKey(properties, k);
          InsertAllKeeps(OrEmpty(table.parameters), properties, k);
        }
      case UnsetProperties(keys, ifExists) =>
        if !exists i :: 0 <= i < |keys| && IsReserved(keys[i]) {
          assert k !in keys;
          RemoveKeysKeeps(OrEmpty(table.parameters), keys, ifExists, k);
        }
      case _ =>
    }
  }

  /** One call: what was asked, and whether the Metastore then stored the altered definition. */
  datatype Call = Call(options: AlterOptions, stored: bool)

  /** The stored definition after a run of `alter_table` calls; a failed change is never sent. */
  function Run(table: Table, calls: seq<Call>): Table
    decreases |calls|
  {
    if calls == [] then table
    else
      var a := ApplyAlter(table, calls[0].options);
      Run(if a.result.Ok? && calls[0].stored then a.table else table, calls[1..])
  }

  lemma {:induction false} RunKeepsReserved(table: Table, calls: seq<Call>)
    ensures var after := Run(table, calls);
            && SameReserved(after.parameters, table.parameters)
            && after.partitionKeys == table.partitionKeys
            && after.tableName == table.tableName
            && after.tableType == table.tableType
    decreases |calls|
  {
    if calls != [] {
      AlterKeepsReserved(table, calls[0].options);
      var a := ApplyAlter(table, calls[0].options);
      RunKeepsReserved(if a.result.Ok? && calls[0].stored then a.table else table, calls[1..]);
    }
  }

  lemma {:induction false} ReadPartsAgree(p: map<string, string>, q: map<string, string>, index: nat, count: nat)
    requires index <= count && SameReserved(Some(p), Some(q))
    ensures ReadParts(p, SCHEMA_KEY, index, count) == ReadParts(q, SCHEMA_KEY, index, count)
    decreases count - index
  {
    if index < count {
      PartKeyFamily(index);
      assert GetProperty(Some(p), PartKey(SCHEMA_KEY, index)) == GetProperty(Some(q), PartKey(SCHEMA_KEY, index));
      ReadPartsAgree(p, q, index + 1, count);
    }
  }

  /** Reading the schema depends on reserved keys only. */
  lemma ReadSchemaAgrees(p: Option<map<string, string>>, q: Option<map<string, string>>)
    requires SameReserved(p, q)
    ensures ReadProp(p, SCHEMA_KEY) == ReadProp(q, SCHEMA_KEY)
  {
    FixedKeyFamilies();
    CountKeyFamilies();
    var m, n := OrEmpty(p), OrEmpty(q);
    assert GetProperty(p, SCHEMA_KEY) == GetProperty(q, SCHEMA_KEY);
    assert GetProperty(p, NumPartsKey(SCHEMA_KEY)) == GetProperty(q, NumPartsKey(SCHEMA_KEY));
    assert ReadProp(p, SCHEMA_KEY) == ReadProp(Some(m), SCHEMA_KEY);
    assert ReadProp(q, SCHEMA_KEY) == ReadProp(Some(n), SCHEMA_KEY);
    assert SameReserved(Some(m), Some(n)) by {
      forall k | IsReserved(k)
        ensures GetProperty(Some(m), k) == GetProperty(Some(n), k)
      {
        assert GetProperty(p, k) == GetProperty(q, k);
      }
    }
    if NumPartsKey(SCHEMA_KEY) in m && SCHEMA_KEY !in m {
      var count := ParseUnsigned(m[NumPartsKey(SCHEMA_KEY)], USIZE_MAX);
      if count.Some? {
        ReadPartsAgree(m, n, 0, count.value);
      }
    }
  }

  /** A definition that carries a Spark schema and a provider. */
  predicate HasSparkMetadata(table: Table) {
    ReadProp(table.parameters, SCHEMA_KEY) != Ok(None) && GetProperty(table.parameters, PROVIDER_KEY).Some?
  }

  /**
  The columns and the format reported for a table with Spark metadata are the same after
  every run of alterations; in particular an altered column type never becomes visible.
  */
  lemma RunKeepsReport(codec: TextCodec, table: Table, calls: seq<Call>)
    requires HasSparkMetadata(table)
    ensures var after := Run(table, calls);
            && StatusColumns(codec, after) == StatusColumns(codec, table)
            && StatusFormat(after) == StatusFormat(table)
            && HasSparkMetadata(after)
  {
    var after := Run(table, calls);
    RunKeepsReserved(table, calls);
    ReadSchemaAgrees(after.parameters, table.parameters);
    FixedKeyFamilies();
    assert GetProperty(after.parameters, PROVIDER_KEY) == GetProperty(table.parameters, PROVIDER_KEY);
  }
}
