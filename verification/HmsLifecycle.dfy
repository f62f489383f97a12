/** A Hive Metastore table over its whole life: created, altered any number of times, then read. */
module HmsLifecycle {
  import opened Arrow
  import opened Text
  import opened Json
  import opened LargeProperty
  import opened PartitionColumns
  import opened HmsTable
  import opened SparkKeys
  import opened HmsAlter
  import opened HmsCreateRead
  import opened PropertyList
  import SparkSchema

  // What alterations do to the properties a reader sees, said without the table.

  predicate AllUnreserved(keys: seq<string>) {
    forall i :: 0 <= i < |keys| ==> !IsReserved(keys[i])
  }

  /** SET overwrites; UNSET removes all its keys or none; nothing else touches a property. */
  function ShownStep(shown: map<string, string>, call: Call): map<string, string> {
    match call.options
    case SetProperties(pairs) =>
      if call.stored && NoReserved(pairs) then InsertAll(shown, pairs) else shown
    case UnsetProperties(keys, ifExists) =>
      if call.stored && AllUnreserved(keys) && (ifExists || (Distinct(keys) && KeySet(keys) <= shown.Keys))
      then shown - KeySet(keys) else shown
    case _ => shown
  }

  function ShownAfter(shown: map<string, string>, calls: seq<Call>): map<string, string>
    decreases |calls|
  {
    if calls == [] then shown else ShownAfter(ShownStep(shown, calls[0]), calls[1..])
  }

  function AfterCall(table: Table, call: Call): Table {
    var a := ApplyAlter(table, call.options);
    if a.result.Ok? && call.stored then a.table else table
  }

  lemma StepShows(table: Table, call: Call)
    ensures VisibleProperties(AfterCall(table, call).parameters)
            == ShownStep(VisibleProperties(table.parameters), call)
  {
    var m := OrEmpty(table.parameters);
    var shown := VisibleProperties(table.parameters);
    assert VisibleProperties(Some(m)) == shown;
    match call.options
    case SetProperties(pairs) =>
      if NoReserved(pairs) {
        InsertAllVisible(m, pairs);
      }
    case UnsetProperties(keys, ifExists) =>
      if AllUnreserved(keys) {
        RemoveKeysVisible(m, keys, ifExists);
        RemoveKeysExact(shown, keys, ifExists);
      }
    case _ =>
  }

  lemma {:induction false} RunShows(table: Table, calls: seq<Call>)
    ensures VisibleProperties(Run(table, calls).parameters)
            == ShownAfter(VisibleProperties(table.parameters), calls)
    decreases |calls|
  {
    if calls != [] {
      StepShows(table, calls[0]);
      RunShows(AfterCall(table, calls[0]), calls[1..]);
    }
  }

  function LocationOf(table: Table): Option<string> {
    if table.sd.Some? then table.sd.value.location else None
  }

  lemma {:induction false} RunKeepsLocation(table: Table, calls: seq<Call>)
    ensures LocationOf(Run(table, calls)) == LocationOf(table)
    decreases |calls|
  {
    if calls != [] {
      RunKeepsLocation(AfterCall(table, calls[0]), calls[1..]);
    }
  }

  /** A run never touches a status but in its properties and the comment kept among them. */
  lemma RunKeepsStatus(codec: TextCodec, catalog: string, database: seq<string>, table: Table, calls: seq<Call>)
    requires HasSparkMetadata(table)
    ensures var before := TableToStatus(codec, catalog, database, table);
            var after := TableToStatus(codec, catalog, database, Run(table, calls));
            && (before.Err? ==> after == before)
            && (before.Ok? ==>
                  var shown := ShownAfter(before.value.properties, calls);
                  after == Ok(before.value.(properties := shown, comment := GetProperty(Some(shown), COMMENT_KEY))))
  {
    var last := Run(table, calls);
    RunKeepsReport(codec, table, calls);
    RunKeepsReserved(table, calls);
    RunKeepsLocation(table, calls);
    RunShows(table, calls);
    CommentVisible(last.parameters, VisibleProperties(last.parameters));
  }

  /** A created table carries its Spark metadata and shows the user's properties. */
  lemma CreatedParameters(codec: TextCodec, version: string, storage: string -> StorageFormat,
                          db: string, name: string, options: CreateOptions)
    requires CreateTable(codec, version, storage, db, name, options).Ok?
    requires var schema := SparkSchema.SchemaToJson(ColumnFields(options.columns));
             schema.Ok? ==> |codec.encode(schema.value)| < USIZE_MAX
    ensures var table := CreateTable(codec, version, storage, db, name, options).value;
            HasSparkMetadata(table) && VisibleProperties(table.parameters) == UserProperties(options)
  {
    var columns, parts := options.columns, PartitionNames(options.partitionBy);
    var format := LogicalFormat(options.format).value;
    var base := BuildGenericTable(db, name, columns, parts, options.location, format, storage(format),
                                  options.comment, options.properties).value;
    var text := codec.encode(SparkSchema.SchemaToJson(ColumnFields(columns)).value);
    BaseParameters(db, name, columns, parts, options.location, format, storage(format), options);
    InjectedParameters(base.parameters.value, text, parts, format, version);
  }

  /**
  Create, alter any number of times, read. Whatever the alterations were and however they
  ended, the read succeeds exactly when the table is not partitioned or its column names are
  distinct ignoring case; it reports the columns, format, partitioning and location given at
  creation, and the created properties with the stored SETs and UNSETs applied.
  */
  lemma CreateAlterRead(codec: TextCodec, version: string, storage: string -> StorageFormat, catalog: string,
                        database: seq<string>, db: string, name: string, options: CreateOptions, calls: seq<Call>)
    requires CreateTable(codec, version, storage, db, name, options).Ok?
    requires var schema := SparkSchema.SchemaToJson(ColumnFields(options.columns));
             schema.Ok? ==> codec.Faithful(schema.value) && |codec.encode(schema.value)| < USIZE_MAX
    ensures var table := Run(CreateTable(codec, version, storage, db, name, options).value, calls);
            var shown := ShownAfter(UserProperties(options), calls);
            TableToStatus(codec, catalog, database, table) ==
            if options.partitionBy == [] || DistinctLower(NamesOf(options.columns, ColumnName))
            then Ok(ExpectedStatus(catalog, database, name, options)
                    .(properties := shown, comment := GetProperty(Some(shown), COMMENT_KEY)))
            else Err(External)
  {
    CreateThenRead(codec, version, storage, catalog, database, db, name, options);
    CreatedParameters(codec, version, storage, db, name, options);
    RunKeepsStatus(codec, catalog, database, CreateTable(codec, version, storage, db, name, options).value, calls);
  }

  // The same properties in the in-memory catalog

  /** The value of the first pair of a key, and of the last. */
  function FirstValue(list: Properties, key: string): Option<string> {
    if list == [] then None
    else if list[0].0 == key then Some(list[0].1)
    else FirstValue(list[1..], key)
  }

  function LastValue(list: Properties, key: string): Option<string> {
    if list == [] then None
    else
      var rest := LastValue(list[1..], key);
      if rest.Some? then rest else if list[0].0 == key then Some(list[0].1) else None
  }

  function Lookup(m: map<string, string>, key: string): Option<string> {
    if key in m then Some(m[key]) else None
  }

  lemma {:induction false} AsMapIsFirst(list: Properties, key: string)
    ensures Lookup(AsMap(list), key) == FirstValue(list, key)
  {
    if list != [] {
      AsMapIsFirst(list[1..], key);
    }
  }

  lemma {:induction false} InsertAllIsLast(m: map<string, string>, list: Properties, key: string)
    ensures Lookup(InsertAll(m, list), key) ==
            if LastValue(list, key).Some? then LastValue(list, key) else Lookup(m, key)
    decreases |list|
  {
    if list != [] {
      InsertAllIsLast(m[list[0].0 := list[0].1], list[1..], key);
    }
  }

  lemma {:induction false} SameKeys(list: Properties, key: string)
    ensures FirstValue(list, key).Some? == LastValue(list, key).Some? == HasKey(list, key)
  {
    if list != [] {
      var rest := list[1..];
      SameKeys(rest, key);
      assert HasKey(list, key) <==> list[0].0 == key || HasKey(rest, key) by {
        assert forall i :: 0 <= i < |rest| ==> rest[i] == list[i + 1];
        assert forall i :: 0 < i < |list| ==> list[i] == rest[i - 1];
      }
    }
  }

  /** No repeated key whose first and last value differ, and the comment, if any, also given as a property. */
  predicate SameStart(options: CreateOptions) {
    && (forall i :: 0 <= i < |options.properties| ==>
          var key := options.properties[i].0;
          (options.comment.Some? && key == COMMENT_KEY)
          || FirstValue(options.properties, key) == LastValue(options.properties, key))
    && (options.comment.Some? ==> FirstValue(options.properties, COMMENT_KEY) == options.comment)
  }

  lemma UserPropertiesAt(options: CreateOptions, key: string)
    ensures Lookup(UserProperties(options), key) ==
            if options.comment.Some? && key == COMMENT_KEY then options.comment
            else LastValue(options.properties, key)
  {
    InsertAllIsLast(map[], options.properties, key);
  }

  /** The list and the Metastore's map stand for the same properties exactly under that condition. */
  lemma SameStartExact(options: CreateOptions)
    ensures AsMap(options.properties) == UserProperties(options) <==> SameStart(options)
  {
    var list, m, user := options.properties, AsMap(options.properties), UserProperties(options);
    forall key
      ensures Lookup(m, key) == FirstValue(list, key)
      ensures FirstValue(list, key).Some? == LastValue(list, key).Some? == HasKey(list, key)
      ensures Lookup(user, key) ==
              if options.comment.Some? && key == COMMENT_KEY then options.comment else LastValue(list, key)
    {
      AsMapIsFirst(list, key);
      SameKeys(list, key);
      UserPropertiesAt(options, key);
    }
    if SameStart(options) {
      forall key ensures Lookup(m, key) == Lookup(user, key) {
        if HasKey(list, key) {
          var i :| 0 <= i < |list| && list[i].0 == key;
        }
      }
      SameLookups(m, user);
    }
    if m == user {
      forall i | 0 <= i < |list| && !(options.comment.Some? && list[i].0 == COMMENT_KEY)
        ensures FirstValue(list, list[i].0) == LastValue(list, list[i].0)
      {
        assert Lookup(m, list[i].0) == Lookup(user, list[i].0);
      }
      assert Lookup(m, COMMENT_KEY) == Lookup(user, COMMENT_KEY);
    }
  }

  lemma SameLookups(m: map<string, string>, n: map<string, string>)
    requires forall key :: Lookup(m, key) == Lookup(n, key)
    ensures m == n
  {
    forall key ensures key in m <==> key in n {
      assert Lookup(m, key) == Lookup(n, key);
    }
    forall key | key in m && key in n ensures m[key] == n[key] {
      assert Lookup(m, key) == Lookup(n, key);
    }
  }

  /** A table created in both catalogs from the same options starts out alike exactly under that condition. */
  lemma CreatedAlike(codec: TextCodec, version: string, storage: string -> StorageFormat,
                     db: string, name: string, options: CreateOptions)
    requires CreateTable(codec, version, storage, db, name, options).Ok?
    requires var schema := SparkSchema.SchemaToJson(ColumnFields(options.columns));
             schema.Ok? ==> |codec.encode(schema.value)| < USIZE_MAX
    ensures Alike(options.properties, CreateTable(codec, version, storage, db, name, options).value)
            <==> SameStart(options)
  {
    CreatedParameters(codec, version, storage, db, name, options);
    SameStartExact(options);
  }

  lemma {:induction false} FirstIsLast(list: Properties, key: string)
    requires DistinctKeys(list)
    ensures FirstValue(list, key) == LastValue(list, key)
  {
    if list != [] {
      FirstIsLast(list[1..], key);
      SameKeys(list[1..], key);
      assert forall i :: 0 <= i < |list[1..]| ==> list[1..][i] == list[i + 1];
      assert !HasKey(list[1..], list[0].0);
    }
  }

  /** In particular without repeated keys and without a comment. */
  lemma DistinctStart(options: CreateOptions)
    requires DistinctKeys(options.properties) && options.comment.None?
    ensures SameStart(options)
  {
    forall key ensures FirstValue(options.properties, key) == LastValue(options.properties, key) {
      FirstIsLast(options.properties, key);
    }
  }
}
