# Zelox catalog layer, verified in Dafny

Zelox talks to several table catalogs. This project models the logic of that layer and
proves what its operations promise, over all inputs, all interleavings and all runs.
`dafny verify dfyconfig.toml` checks everything.

What is modelled, by part of the system:

- **Hive Metastore schema codec** (`TopLevel`, `HiveSyntax`, `HiveShape`, `HiveShapeParse`,
  `HiveRoundTrip`, `HiveImage`, `HiveNames`, `HiveExact`, `HiveLoops`, `Json`, `SparkSchema`,
  `SparkRoundTrip`, `SerialisationsAgree`). A nested Arrow type is written as a Hive type
  string and as Spark schema JSON, and read back. The bracket-depth splitter, both printers
  and both parsers are modelled. Glue's codec is the second dialect of the same modules;
  `GlueCut` and `GlueExact` say exactly what it reads back.
- **Hive Metastore tables** (`LargeProperty`, `PartitionColumns`, `HmsTable`, `SparkKeys`,
  `HmsCreateRead`, `HmsFallback`, `HmsAlter`, `HmsLifecycle`, `HmsVisible`). A table is built,
  its schema text is cut into numbered properties, stored, altered any number of times, and
  reported again.
- **Hive Metastore failover** (`Failover`, `FailoverCall`, `LostReplies`). Tasks share an
  active endpoint and a cached client behind a mutex that is released while clients are
  built. Every region under the lock is one step of a state machine.
- **System-table filter pushdown** (`Predicate`, `FilterPushdown`). Filters are split by
  column, conjoined, rewritten to a one-field record, and consulted column by column.
- **Unity codec and token cache** (`UnityType`, `UnityRoundTrip`, `UnityColumn`,
  `TokenCache`).
- **In-memory catalog** (`QuotedNames`, `PropertyList`, `ColumnPath`, `MemoryCatalog`,
  `CatalogsAgree`), and its agreement with the Metastore catalog.

`Arrow` holds the data types and the result type, `Text` the string functions.

A nested field name is called tame when it has no colon, no blank where the parser trims,
and its brackets close without a comma outside them. The Metastore parser trims a name at
its start and counts parentheses as brackets too; Glue's trims both ends and counts angle
brackets only.

Where the model proves that something does not hold, it gives the exact condition:

- A partitioned table whose column names collide ignoring case is stored, the CREATE call
  that stored it answers an error, and no later read succeeds
  (`HmsCreateRead.CreateCallExact`, `HmsCreateRead.StoredButUnreadable`).
- A cached client can be paired with another endpoint's index as soon as there are two
  endpoints, and only by one kind of step (`Failover.PairedInEveryRun`,
  `Failover.MispairingTraced`).
- A printed Hive type reads back if and only if its nested names are tame
  (`HiveExact.HiveReadsBackExactly`).
- A type read from a Metastore text can be written again if and only if its decimals are
  within 38 digits and their scale within the precision; then it reads as the same type if
  and only if its names are tame and no timestamp lacks a zone
  (`HiveExact.HiveReadWriteRead`). `HiveExact.LostDecimal` and `HiveExact.LostName` are
  accepted texts that are lost.
- What Glue printed reads back if and only if names are trimmed and without colon, and no
  comma is cut by angle depth but those between the parts (`GlueExact.GlueReadsBackExactly`).
  With tame names that is: no decimal is a direct struct field or a direct map key
  (`HiveRoundTrip.GlueParseInvertsPrint`, `GlueExact.TameKeeps`).
- A Unity decimal beyond 128 bits is printed and then refused when it is nested
  (`UnityRoundTrip.FromJsonInvertsToJson`, `UnityColumn.ColumnRoundTrip`).
- A create call can succeed without having created the table
  (`LostReplies.SuccessWithoutCreating`).
- A stored change of a column to another type, of tame names, shows in the Metastore catalog
  if and only if the table carries no Spark schema (`HmsVisible.AlterVisibleExactly`,
  `HmsVisible.TypeChangeShows`), and so over every run (`HmsVisible.RunStatus`). Every table the catalog creates carries
  one, so there it never shows (`HmsLifecycle.CreateAlterRead`).
- The two catalogs start out with the same properties if and only if repeated keys agree and
  a comment is also given as a property (`HmsLifecycle.CreatedAlike`).
- A failing UNSET keeps its partial effect in memory and none in the Metastore; the two
  catalogs still agree exactly when the first key was the missing one
  (`PropertyList.FailedUnset`).
- A filter that is null for a row makes its column's predicate fail, unless another filter of
  the same column decides it false (`FilterPushdown.NullFilterFails`,
  `FilterPushdown.NullBesideFalse`); the scan of a row fails if and only if the predicate of
  the first column with an untrue filter does (`FilterPushdown.ScanExact`).
- ALTER COLUMN TYPE through a repeated field name is refused although the path leads
  somewhere (`ColumnPath.RepeatedNameRefused`).

Parameters of the model: `serde_json` is a pair of functions `TextCodec` assumed to read
back the one text it wrote (`Faithful`); the package version; the storage classes of a
format; the outcome of every client build, remote call and token fetch; the clock; and the
meaning of every filter operator other than AND.

## Model

| member | source | states |
|---|---|---|
| `TopLevel.SplitTopLevel` | crates/zelox-catalog-hms/src/data_type.rs:469-514 | the one-pass loop over brackets, parentheses and commas returns exactly the trimmed top-level pieces of the recursive definition, and fails where that fails |
| `TopLevel.SplitInvertsJoin` | crates/zelox-catalog-hms/src/data_type.rs:469-514 | splitting the comma-join of any list of depth-balanced pieces without a top-level comma gives the list back, less one empty last piece |
| `TopLevel.SplitFromSound` | crates/zelox-catalog-hms/src/data_type.rs:469-514 | every successful split comes from such a list: rejoining the pieces (plus possibly one empty piece) gives the input, and each piece is balanced |
| `TopLevel.SplitExact` | crates/zelox-catalog-hms/src/data_type.rs:469-514 | a split succeeds with given pieces if and only if the input is the join of balanced pieces that are those, up to one dropped empty last piece |
| `HiveShapeParse.ParseInvertsRender` | crates/zelox-catalog-hms/src/data_type.rs:96-136 | for every type text of tame lower-case names, at any nesting, the parser answers the type it denotes, or refuses it exactly where the dialect's splitter cuts a decimal; other cases of letters by `HiveRoundTrip.ParseIgnoresCase`, other names by `HiveNames.OpenShapeRefused` and `GlueExact.GlueReadsBackExactly` |
| `HiveShapeParse.ParseDecimalText` | crates/zelox-catalog-hms/src/data_type.rs:379-411 | a printed decimal is parsed back with the same precision and scale |
| `HiveShapeParse.HiveFieldTexts` | crates/zelox-catalog-hms/src/data_type.rs:443-457 | the Metastore splitter finds exactly the printed members of a struct |
| `HiveShapeParse.KeyValueTextsCut` | crates/zelox-catalog-glue/src/data_type.rs:296-320 | a decimal map key is cut at its own comma by Glue's separator search |
| `HiveRoundTrip.ParseInvertsPrint` | crates/zelox-catalog-hms/src/data_type.rs:7-136 | in both dialects, parsing a printed type of tame names gives its normal form if no decimal is exposed to the splitter and an error otherwise |
| `HiveRoundTrip.HiveParseInvertsPrint` | crates/zelox-catalog-hms/src/data_type.rs:7-136 | every type the Metastore printer accepts, with tame nested names, reads back as its normal form: signed integers, 128-bit decimals, microsecond UTC timestamps, lower-case names, nullable children |
| `HiveRoundTrip.GlueParseInvertsPrint` | crates/zelox-catalog-glue/src/data_type.rs:207-384 | with tame names, Glue accepts its own printer's output if and only if, dictionaries unwrapped, no decimal is a direct struct field or map key; then it reads back the normal form |
| `HiveRoundTrip.GlueRefusesDecimalField` | crates/zelox-catalog-glue/src/data_type.rs:322-356 | a struct of tame names with a decimal field of either width, or a dictionary of decimals, is printed and then refused, whatever the other fields |
| `HiveRoundTrip.ParseIgnoresCase` | crates/zelox-catalog-hms/src/data_type.rs:96-100 | the parser answers the same for a text and its lower-case form |
| `HiveRoundTrip.PrintNormal` | crates/zelox-catalog-hms/src/data_type.rs:7-94 | the normal form prints as the lower-case of the first text, so a second trip changes nothing |
| `HiveRoundTrip.PrintIsRender` | crates/zelox-catalog-hms/src/data_type.rs:7-94 | the printer succeeds on exactly the types that have a shape, and its text is that shape's |
| `HiveImage.ParseInImage` | crates/zelox-catalog-hms/src/data_type.rs:96-136 | whatever the text, a type the parser answers has lower-case field names, plain nullable children and one of a fixed set of leaves |
| `HiveImage.ImageStable` | crates/zelox-catalog-hms/src/data_type.rs:96-136 | such a type is its own normal form if and only if the dialect is Glue or it has no timestamp without a zone |
| `HiveNames.OpenShapeRefused` | crates/zelox-catalog-hms/src/data_type.rs:413-467 | a printed text in which a name, otherwise as the parser cuts names and in lower case, leaves a bracket open is refused by the Metastore parser, at any nesting |
| `HiveExact.AcceptedNamesTame` | crates/zelox-catalog-hms/src/data_type.rs:96-136 | a printed type whose names are as the parser cuts them (no colon, no leading blank, no comma outside brackets, no stray closing bracket) reads back as its normal form if they are tame and is refused otherwise, that is, if one leaves a bracket open |
| `HiveExact.HiveReadsBackExactly` | crates/zelox-catalog-hms/src/data_type.rs:7-136 | every type the Metastore printer accepts reads back as its normal form if and only if its nested names are tame |
| `HiveExact.ImagePrints` | crates/zelox-catalog-hms/src/data_type.rs:7-94 | a type some text parses to can be printed if and only if, in Hive, every decimal has at most 38 digits and a scale from zero to its precision |
| `HiveExact.HiveReadWriteRead` | crates/zelox-catalog-hms/src/data_type.rs:7-136 | whatever text the Metastore parser accepts: its type prints exactly when its decimals are in range, the printed text reads as the normal form if the names are tame and is refused otherwise, and the first type comes back if and only if decimals are in range, names are tame and no timestamp lacks a zone |
| `HiveExact.WideDecimalLost` | crates/zelox-catalog-hms/src/data_type.rs:379-411 | every decimal of more than 38 digits is read and cannot be written |
| `HiveExact.OpenNameLost` | crates/zelox-catalog-hms/src/data_type.rs:443-467 | every name that leaves one parenthesis open is read when a character type closes it, is written, and is then refused |
| `HiveExact.LostDecimal` | crates/zelox-catalog-hms/src/data_type.rs:379-411 | one such text |
| `HiveExact.LostName` | crates/zelox-catalog-hms/src/data_type.rs:443-467 | one such text |
| `HiveExact.BothReadBackTheSame` | crates/zelox-catalog-hms/src/data_type.rs:7-377 | for a type both printers accept, the Spark JSON always reads back, and the Hive text gives the same type, up to nullability, metadata, name case and a zone-less timestamp becoming UTC, if and only if the nested names are tame |
| `GlueExact.OffIsOther` | crates/zelox-catalog-glue/src/data_type.rs:207-384 | no text that stops short of a printed one at a comma, bracket or blank, or goes on after it with a comma or bracket, reads as the printed type (names trimmed and without colon) |
| `GlueExact.ReadIsKept` | crates/zelox-catalog-glue/src/data_type.rs:296-384 | a rendered type that reads as itself was cut by angle depth at its own separators only |
| `GlueExact.KeptIsRead` | crates/zelox-catalog-glue/src/data_type.rs:296-384 | and the converse |
| `GlueExact.GlueReadsBackExactly` | crates/zelox-catalog-glue/src/data_type.rs:207-384 | every type Glue's printer accepts reads back as its normal form if and only if its names are trimmed and without colon and its text is cut at its own separators only |
| `GlueExact.TameKeeps` | crates/zelox-catalog-glue/src/data_type.rs:296-384 | with tame names that condition is: no decimal is exposed to the splitter |
| `GlueExact.GlueReadWriteRead` | crates/zelox-catalog-glue/src/data_type.rs:207-384 | whatever text Glue's parser accepts, its type prints, and comes back if and only if that condition holds |
| `HiveLoops.ParseStructBody` | crates/zelox-catalog-hms/src/data_type.rs:443-457 | the field loop over the split pieces computes the recursive parse, with the first error |
| `HiveLoops.ParseStructBodyGlue` | crates/zelox-catalog-glue/src/data_type.rs:322-356 | Glue's single pass that parses a field at each comma of angle depth zero computes splitting followed by parsing |
| `HiveLoops.FindTypeSeparator` | crates/zelox-catalog-glue/src/data_type.rs:371-384 | the position found is that of the first comma at angle depth zero |
| `SparkRoundTrip.FromJsonInvertsToJson` | crates/zelox-catalog-hms/src/data_type.rs:211-377 | every type the Spark printer accepts reads back as its normal form, with name case, nullability and nested comments kept at every depth |
| `SparkRoundTrip.SchemaRoundTrip` | crates/zelox-catalog-hms/src/data_type.rs:138-209 | the same for a whole schema |
| `SparkRoundTrip.ToJsonOfNormal` | crates/zelox-catalog-hms/src/data_type.rs:211-296 | printing the type that came back gives the same JSON |
| `SparkRoundTrip.ToJsonIsEncode` | crates/zelox-catalog-hms/src/data_type.rs:211-296 | the printer succeeds on exactly the types that have a schema tree, and its JSON is that tree's |
| `SparkRoundTrip.DecodeEncode` | crates/zelox-catalog-hms/src/data_type.rs:298-377 | the JSON of any schema tree is parsed as the type the tree denotes |
| `SerialisationsAgree.NormalsAgree` | crates/zelox-catalog-hms/src/data_type.rs:7-377 | the two normal forms agree in that sense, by induction over the type |
| `LargeProperty.SplitIntoParts` | crates/zelox-catalog-hms/src/convert.rs:417-445 | the character loop cuts the text into the chunks of the recursive definition |
| `LargeProperty.SplitLargeTableProp` | crates/zelox-catalog-hms/src/convert.rs:417-445 | the pairs written are one pair for a short text, else a count and numbered parts |
| `LargeProperty.ReadLargeTableProp` | crates/zelox-catalog-hms/src/convert.rs:447-485 | the reading loop computes the recursive reader, with its errors for a bad count or a missing part |
| `LargeProperty.ChunksConcat` | crates/zelox-catalog-hms/src/convert.rs:417-445 | the chunks concatenate to the text |
| `LargeProperty.ChunkSizes` | crates/zelox-catalog-hms/src/convert.rs:417-445 | every chunk but the last has exactly the threshold length, the last between one and the threshold |
| `LargeProperty.ReadBack` | crates/zelox-catalog-hms/src/convert.rs:417-485 | a map holding the written pairs, without a plain schema key beside the parts, reads back the text |
| `LargeProperty.SplitPairsDistinct` | crates/zelox-catalog-hms/src/convert.rs:417-445 | no two written pairs share a key |
| `SparkKeys.SparkPairsDistinct` | crates/zelox-catalog-hms/src/convert.rs:252-302 | all keys inserted as Spark metadata (parts, counts, partition columns, provider, version) are different |
| `SparkKeys.SparkPairsReserved` | crates/zelox-catalog-hms/src/convert.rs:252-302 | every such key is reserved, so user properties cannot collide with it |
| `SparkKeys.SchemaKeyAbsent` | crates/zelox-catalog-hms/src/convert.rs:252-302 | when the schema is cut into parts, the plain schema key is not among the inserted keys |
| `PartitionColumns.RouteColumns` | crates/zelox-catalog-hms/src/convert.rs:611-633 | the loop that claims each lookup entry for the first column of that name computes the recursive routing |
| `PartitionColumns.RouteSelects` | crates/zelox-catalog-hms/src/convert.rs:510-545 | with names distinct ignoring case, routing is the stable partition by membership in the partition names |
| `PartitionColumns.RouteUnmatched` | crates/zelox-catalog-hms/src/convert.rs:574-584 | the entries left over are exactly the partition names no column has |
| `PartitionColumns.RoutePartitionNames` | crates/zelox-catalog-hms/src/convert.rs:611-633 | the partition side has exactly the claimed names |
| `HmsCreateRead.BaseParameters` | crates/zelox-catalog-hms/src/convert.rs:186-247 | a built table shows exactly the user's properties and comment, and has no schema key |
| `HmsCreateRead.InjectedParameters` | crates/zelox-catalog-hms/src/convert.rs:252-302 | after injection the schema text and the provider read back and no visible property changed |
| `HmsCreateRead.PartitionKeys` | crates/zelox-catalog-hms/src/convert.rs:611-633 | the partition keys are, ignoring case, the requested columns, all of them columns of the table, in schema order |
| `HmsCreateRead.ReorderBack` | crates/zelox-catalog-hms/src/convert.rs:510-545 | reordering gives regular then partition columns in schema order exactly when the table is unpartitioned or the names are distinct ignoring case, else an error |
| `HmsCreateRead.FormatReadBack` | crates/zelox-catalog-hms/src/convert.rs:366-373 | every logical format a table can be created with reads back as itself |
| `HmsCreateRead.CreateAccepts` | crates/zelox-catalog-hms/src/provider.rs:929-997 | a definition is built if and only if the options are supported, the format is known, no property is reserved, every column type has both serialised forms and every partition column is, ignoring case, a column |
| `HmsCreateRead.CreateThenRead` | crates/zelox-catalog-hms/src/convert.rs:67-124 | reading a created table succeeds if and only if it is unpartitioned or its names are distinct ignoring case, and then reports the columns in Spark normal form, regular before partition columns, the partition columns flagged, the format, the location and exactly the user's properties |
| `HmsCreateRead.CreateCallExact` | crates/zelox-catalog-hms/src/provider.rs:518-557 | the whole create call on a new name: the definition is stored exactly when the options are accepted, the answer is the read of what was stored, and it is the expected status if and only if the table is unpartitioned or its names are distinct ignoring case, else an error with the table left in place |
| `HmsCreateRead.StoredButUnreadable` | crates/zelox-catalog-hms/src/provider.rs:929-1009 | columns a and A partitioned by a: stored, and the call answers an error |
| `HmsFallback.RouteBack` | crates/zelox-catalog-hms/src/convert.rs:635-675 | routing the printed columns and reading them back is routing the columns, their types in Hive normal form, for columns of tame nested names |
| `HmsFallback.ReadWithoutMetadata` | crates/zelox-catalog-hms/src/convert.rs:67-124 | a built table without Spark metadata reads back as regular before partition columns in Hive normal form and nullable, the user's properties, and the provider's or the detected format, if and only if the nested names of all columns are tame |
| `HmsFallback.RouteNeedsTame` | crates/zelox-catalog-hms/src/convert.rs:635-675 | if all routed columns read back in Hive normal form, their nested names are tame |
| `HmsAlter.TableDefinition.Insert` | crates/zelox-catalog-hms/src/provider.rs:99-105 | inserting pairs in a loop is the fold over the parameter map, creating it when absent |
| `HmsAlter.TableDefinition.InjectMetadata` | crates/zelox-catalog-hms/src/convert.rs:252-302 | in place, the definition becomes the one of the value-level injection, and on error at most an empty parameter map is added |
| `HmsAlter.TableDefinition.Remove` | crates/zelox-catalog-hms/src/provider.rs:106-119 | the removal loop with its early exit leaves exactly the prefix removed |
| `HmsAlter.TableDefinition.Apply` | crates/zelox-catalog-hms/src/provider.rs:93-158 | the altered definition and the result are those of the value-level alteration, partial effects of a failure included |
| `HmsAlter.AlterKeepsReserved` | crates/zelox-catalog-hms/src/provider.rs:93-158 | an alteration, successful or failed, leaves every reserved parameter, the partition keys, the name and the table type alone |
| `HmsAlter.RunKeepsReserved` | crates/zelox-catalog-hms/src/provider.rs:1046-1115 | so does every run of alterations |
| `HmsAlter.ReadSchemaAgrees` | crates/zelox-catalog-hms/src/convert.rs:447-485 | reading the schema text depends on reserved keys only |
| `HmsAlter.RunKeepsReport` | crates/zelox-catalog-hms/src/provider.rs:93-158 | the columns and format reported for a table with Spark metadata are invariant over every run |
| `HmsLifecycle.RunShows` | crates/zelox-catalog-hms/src/provider.rs:93-119 | over every run the visible properties evolve by a table-free rule: a stored SET overwrites, a stored UNSET removes all of its keys or, when a key is missing or repeated, none |
| `HmsLifecycle.RunKeepsStatus` | crates/zelox-catalog-hms/src/convert.rs:67-124 | a run changes nothing of the reported status but the properties and the comment kept among them |
| `HmsLifecycle.CreatedParameters` | crates/zelox-catalog-hms/src/provider.rs:929-997 | a created table carries its Spark metadata and shows exactly the user's properties |
| `HmsLifecycle.CreateAlterRead` | crates/zelox-catalog-hms/src/provider.rs:1046-1115 | create, any run of alterations, read: the read succeeds under the same condition as before, with the columns, format, partitioning and location of the creation and the properties of the run |
| `HmsLifecycle.CreatedAlike` | crates/zelox-catalog-hms/src/convert.rs:586-597 | a created table shows the property list as an in-memory table would if and only if every repeated key has the same first and last value and the comment, if any, is also the first comment property |
| `HmsLifecycle.SameStartExact` | crates/zelox-catalog-hms/src/convert.rs:586-597 | the list with its first values and the map with its last ones, the comment inserted, are the same under exactly that condition |
| `HmsLifecycle.DistinctStart` | crates/zelox-catalog-hms/src/convert.rs:586-597 | in particular it holds without repeated keys and without a comment |
| `HmsVisible.AlterVisibleExactly` | crates/zelox-catalog-hms/src/convert.rs:67-124 | after an accepted change of a column type a table with a Spark schema reports the same columns; one without reports the first column of that name with the new type in Hive normal form and the others as before, if and only if the new type's names are tame |
| `HmsVisible.TypeChangeShows` | crates/zelox-catalog-hms/src/provider.rs:120-147 | so a change to another type of tame names shows if and only if the table carries no Spark schema |
| `HmsVisible.RunReports` | crates/zelox-catalog-hms/src/provider.rs:93-158 | over every run of calls with tame new types, the columns read from the definition evolve by a rule that does not mention the table |
| `HmsVisible.RunStatus` | crates/zelox-catalog-hms/src/convert.rs:67-124 | a readable table put through any run is readable: name, format, partitioning and location as before, the properties of the run, and the columns as before if it carries a Spark schema, else with the stored type changes applied (new names tame where they can show) |
| `HmsVisible.BuildAlterRead` | crates/zelox-catalog-hms/src/provider.rs:1046-1115 | a table built without Spark metadata, of tame names, altered any number of times and read, in closed form |
| `Failover.NextKeepsInvariant` | crates/zelox-catalog-hms/src/provider.rs:420-516 | every step of every task keeps all indices in range, the attempt count and, until a client is dropped, the pairing |
| `Failover.RunKeepsInvariant` | crates/zelox-catalog-hms/src/provider.rs:420-516 | so does every interleaving |
| `Failover.AllInterleavings` | crates/zelox-catalog-hms/src/provider.rs:420-516 | for any number of tasks: the active index is an endpoint, no call runs its operation more often than there are endpoints, and until the first exhausted rotation the cached client belongs to the active endpoint and every operation runs on a client of the index its task holds |
| `Failover.OnlyLateInstallMispairs` | crates/zelox-catalog-hms/src/provider.rs:430-441 | from any paired state, a step unpairs if and only if it installs a client for an index that is no longer active while none is cached |
| `Failover.MispairingTraced` | crates/zelox-catalog-hms/src/provider.rs:430-482 | every mispaired client in any run goes back to such an install after a client had been dropped |
| `Failover.MispairingRun` | crates/zelox-catalog-hms/src/provider.rs:420-486 | with at least two endpoints a run of two tasks ends with endpoint 0's client cached under index 1 |
| `Failover.PairedInEveryRun` | crates/zelox-catalog-hms/src/provider.rs:420-486 | the cached client is paired in every run if and only if there is one endpoint |
| `FailoverCall.Successor` | crates/zelox-catalog-hms/src/provider.rs:466-467 | the remainder form of the next index is the cyclic successor |
| `FailoverCall.SuccessorsCoverAll` | crates/zelox-catalog-hms/src/provider.rs:466-467 | the successors of any index are all endpoints |
| `FailoverCall.LoneTaskIsRun` | crates/zelox-catalog-hms/src/provider.rs:497-516 | what a lone task reaches is a run of the protocol with that task alone |
| `FailoverCall.ClientCache.RotateClientAfterFailure` | crates/zelox-catalog-hms/src/provider.rs:449-486 | answers the client another task moved to, else the nearest cyclic successor that builds (all nearer ones having failed), else drops the client after all have failed; its steps are those of the protocol |
| `FailoverCall.ClientCache.CurrentClient` | crates/zelox-catalog-hms/src/provider.rs:420-447 | answers the cached client, else one of the active endpoint, else a rotation; its steps are those of the protocol |
| `FailoverCall.ClientCache.Attempt` | crates/zelox-catalog-hms/src/provider.rs:505-514 | one pass of the retry loop: which client ran, how the call ended or that it goes on, and the next active endpoint |
| `FailoverCall.ClientCache.WithFailover` | crates/zelox-catalog-hms/src/provider.rs:497-516 | the call is a run of the protocol machine; the operation runs at most once per endpoint; if all builds succeed attempt k runs on the k-th successor of the starting endpoint, and a retryable error comes only after as many attempts as endpoints |
| `LostReplies.CreateTable` | crates/zelox-catalog-hms/src/provider.rs:527-554 | the retry loop of the call, before its final read (which is in `HmsCreateRead.CreateCallExact`): whatever is lost, at most one create takes effect; the table exists afterwards exactly if it did before or a request was carried out; success and AlreadyExists each hold exactly under a stated condition on the deliveries, AlreadyExists only if the table existed before |
| `LostReplies.DropTable` | crates/zelox-catalog-hms/src/provider.rs:661-701 | the dual for dropping: success implies absent, NotFound implies absent before |
| `LostReplies.SuccessWithoutCreating` | crates/zelox-catalog-hms/src/provider.rs:518-557 | a delivery pattern under which the call succeeds although it created nothing |
| `Predicate.IsColumnPhysicalPredicate` | crates/zelox-catalog-system/src/predicate.rs:80-94 | the early-stopping walk answers whether every column reference in the tree has the name |
| `Predicate.RewritePreservesMeaning` | crates/zelox-catalog-system/src/predicate.rs:108-133 | a rewritten expression evaluated on the one value means what the original means on the whole row, for any operator meaning, nulls and errors included |
| `FilterPushdown.ConjoinFilters` | crates/zelox-catalog-system/src/predicate.rs:37-45 | the fold gives the left-nested conjunction, and nothing for no filter |
| `FilterPushdown.PredicateExtractor.Extract` | crates/zelox-catalog-system/src/predicate.rs:30-48 | takes exactly the filters about the column, in order, keeps the others, and answers their rewritten conjunction |
| `FilterPushdown.ReadPredicates` | crates/zelox-catalog-system/src/service.rs:26-149 | the per-table sequence of extractions yields the predicates of the fold over that table's columns, or an error if a filter is left |
| `FilterPushdown.TakenOnce` | crates/zelox-catalog-system/src/service.rs:26-149 | every filter is taken by exactly one extraction, that of the first column it is about; those about none are left |
| `FilterPushdown.FinalizeExact` | crates/zelox-catalog-system/src/predicate.rs:50-61 | nothing is left if and only if every filter is about one of the columns |
| `FilterPushdown.ConjunctionTrue` | crates/zelox-catalog-system/src/predicate.rs:37-45 | in three-valued logic with errors, the conjunction is true if and only if every conjunct is |
| `FilterPushdown.ConjunctionFalse` | crates/zelox-catalog-system/src/predicate.rs:37-45 | it is false if and only if some conjunct is false, those before are true or null, and those after are skipped by short-circuiting or booleans or null |
| `FilterPushdown.EvaluateTaken` | crates/zelox-catalog-system/src/predicate.rs:108-151 | a column's predicate on the column's value: true, false or an error exactly as its filters on the whole row have it |
| `FilterPushdown.PushdownPreservesMeaning` | crates/zelox-catalog-system/src/predicate.rs:30-151 | for every row, all per-column predicates keep their values if and only if every original filter is true of the row |
| `FilterPushdown.NullFilterFails` | crates/zelox-catalog-system/src/predicate.rs:135-151 | for any list of filters of one column with a null one among them, evaluation fails exactly unless some filter is false, all before it are true or null, and what follows is skipped or not an error |
| `FilterPushdown.NullBesideFalse` | crates/zelox-catalog-system/src/predicate.rs:37-45 | a null filter alone fails; beside a false one, in either order, the row is dropped and nothing fails |
| `FilterPushdown.FiltersOutcomeExact` | crates/zelox-common-datafusion/src/system/predicate.rs:128-143 | consulted in turn, the columns keep the row if all filters are true; else the first column with an untrue filter drops it or fails |
| `FilterPushdown.ScanExact` | crates/zelox-session/src/session_manager/actor/handler.rs:175-319 | for every accepted list of filters and every row, consulting the per-column predicates keeps the row if and only if all filters are true, and drops it or fails exactly as the first column with an untrue filter has it |
| `FilterPushdown.LowerKeepsColumns` | crates/zelox-catalog-system/src/planner.rs:27-53 | the logical and the physical column check agree on an expression and its physical form |
| `FilterPushdown.ExactMeansAccepted` | crates/zelox-catalog-system/src/table_source.rs:31-54 | the scan accepts a list of filters if and only if the planner declared every one exact |
| `UnityRoundTrip.FromJsonInvertsToJson` | crates/zelox-catalog-unity/src/data_type.rs:459-722 | a printed type parses if and only if every decimal in it fits 128 bits, and then to the normal form with list, entry and field metadata kept at every depth |
| `UnityRoundTrip.NoDoubleWrapping` | crates/zelox-catalog-unity/src/data_type.rs:36-317 | no printed type is wrapped twice at any depth |
| `UnityRoundTrip.ToJsonIsEncode` | crates/zelox-catalog-unity/src/data_type.rs:36-317 | the printer succeeds on exactly the types that have a tree, and its JSON is that tree's |
| `UnityRoundTrip.DecodeEncode` | crates/zelox-catalog-unity/src/data_type.rs:472-710 | the JSON of any tree is parsed as the type the tree denotes, or refused exactly for an oversized decimal |
| `UnityColumn.ColumnRoundTrip` | crates/zelox-catalog-unity/src/data_type.rs:319-405 | a written column reads back as its normal form if it is itself a decimal or all its nested decimals fit, else an error |
| `TokenCaching.ReusableExact` | crates/zelox-catalog-unity/src/token.rs:61-75 | the whole-second test reuses a token exactly when it never expires or has a full 301 seconds left |
| `TokenCaching.TokenCache.GetOrInsertWith` | crates/zelox-catalog-unity/src/token.rs:53-82 | one call alone: the new cache and the answer as functions of cache, entry time and fetch result; a failure changes nothing |
| `TokenCaching.LoneCallIsAfterCall` | crates/zelox-catalog-unity/src/token.rs:53-82 | the steps of an undisturbed caller through the interleaving machine are that one call |
| `TokenCaching.NextKeepsInvariant` | crates/zelox-catalog-unity/src/token.rs:53-82 | every step keeps: one fetcher holds the lock, the cache is the last fetched token, a fetcher found nothing reusable, fetches do not overlap, reused tokens were fresh |
| `TokenCaching.RunKeepsInvariant` | crates/zelox-catalog-unity/src/token.rs:53-82 | so does every interleaving, with dropped callers and failed fetches |
| `TokenCaching.ConsecutiveFetches` | crates/zelox-catalog-unity/src/token.rs:53-82 | if every fetched token lives at least L seconds, consecutive successful fetches finish more than L - 301 seconds apart and do not overlap |
| `TokenCaching.EverlastingTokenKept` | crates/zelox-catalog-unity/src/token.rs:72-73 | a token without expiry is the last one ever fetched |
| `TokenCaching.ReusedTokenFresh` | crates/zelox-catalog-unity/src/token.rs:61-71 | every token handed out from the cache was a fetched one with 301 seconds left at its caller's entry |
| `TokenCaching.CacheChangesOnlyByFetching` | crates/zelox-catalog-unity/src/token.rs:77-81 | the cache changes only when the lock holder, having found nothing reusable, fetches successfully |
| `TokenCaching.BoundIsTight` | crates/zelox-catalog-unity/src/token.rs:61-75 | for every L of at least 301 some run fetches again one nanosecond past the bound |
| `QuotedNames.QuoteNamespace` | crates/zelox-catalog/src/utils.rs:67-74 | the appending loop gives the quoted form of head followed by tail |
| `QuotedNames.ReadInvertsQuote` | crates/zelox-catalog/src/utils.rs:51-65 | a left-to-right reader recovers any list of names from its quoted form, empty names and names with dots and backticks included |
| `QuotedNames.QuoteInjective` | crates/zelox-catalog/src/utils.rs:51-65 | two lists of names have the same quoted form if and only if they are equal |
| `PropertyList.SetProperties` | crates/zelox-catalog-memory/src/provider.rs:319-330 | the update-or-push loop computes the recursive update of the list |
| `PropertyList.UnsetProperties` | crates/zelox-catalog-memory/src/provider.rs:331-343 | the check-then-retain loop computes the recursive removal, partial effect of a failure included |
| `PropertyList.SetAllAsMap` | crates/zelox-catalog-memory/src/provider.rs:319-330 | setting on the list is inserting into the map it stands for |
| `PropertyList.UnsetAllAsMap` | crates/zelox-catalog-memory/src/provider.rs:331-343 | unsetting on the list is the Metastore's removal on the map, with the same success, also when it fails halfway |
| `PropertyList.ChangeListUnique` | crates/zelox-catalog-memory/src/provider.rs:319-343 | keys stay unique under every change |
| `PropertyList.ChangeAgrees` | crates/zelox-catalog-hms/src/provider.rs:99-119 | one change of non-reserved keys succeeds in both catalogs or in neither and leaves both showing the same |
| `PropertyList.RunsAgree` | crates/zelox-catalog-hms/src/provider.rs:99-119 | so does every run up to its first failure, from any list and table that show the same; unique keys stay unique |
| `PropertyList.RemoveKeysExact` | crates/zelox-catalog-hms/src/provider.rs:106-119 | removal without IF EXISTS succeeds if and only if all keys are present and none is repeated, and then removes exactly them |
| `PropertyList.FailedUnset` | crates/zelox-catalog-memory/src/provider.rs:331-343 | after a failing UNSET the stored Metastore table is unchanged, and the catalogs still show the same if and only if the first key was the missing one |
| `PropertyList.PartialUnset` | crates/zelox-catalog-memory/src/provider.rs:331-343 | an input on which they differ |
| `ColumnPath.AlterThenRead` | crates/zelox-common-datafusion/src/catalog/status.rs:276-370 | the addressed field has the new type and its old name, nullability and metadata |
| `ColumnPath.AlterElsewhere` | crates/zelox-common-datafusion/src/catalog/status.rs:276-370 | a field on any path that turns off is as it was |
| `ColumnPath.AlterSucceeds` | crates/zelox-common-datafusion/src/catalog/status.rs:276-370 | the change succeeds if and only if every reading of the path leads somewhere |
| `ColumnPath.UniqueResolves` | crates/zelox-common-datafusion/src/catalog/status.rs:276-370 | with unique sibling names that is: exactly when the path leads to a field |
| `ColumnPath.RepeatedNameRefused` | crates/zelox-common-datafusion/src/catalog/status.rs:285-310 | with a repeated name the first reading can lead to a field while the change is refused |
| `MemoryCatalog.Catalog.CreateDatabase` | crates/zelox-catalog-memory/src/provider.rs:58-98 | succeeds exactly when the database is new or IF NOT EXISTS is given, answers what is stored, and never replaces |
| `MemoryCatalog.Catalog.DropDatabase` | crates/zelox-catalog-memory/src/provider.rs:129-150 | removes the database with everything in it; fails exactly when it is missing without IF EXISTS |
| `MemoryCatalog.Catalog.CreateTable` | crates/zelox-catalog-memory/src/provider.rs:152-243 | the new catalog and the answer for every combination of transform, missing database, existing table, IF NOT EXISTS and REPLACE; the answer is what is stored afterwards |
| `MemoryCatalog.Catalog.DropTable` | crates/zelox-catalog-memory/src/provider.rs:268-298 | the table is gone afterwards; fails exactly when it was missing without IF EXISTS |
| `MemoryCatalog.Catalog.AlterTable` | crates/zelox-catalog-memory/src/provider.rs:300-404 | the new catalog and result of every alteration, partial effects of failing ones included |
| `MemoryCatalog.Catalog.CreateView` | crates/zelox-catalog-memory/src/provider.rs:406-470 | as for tables, among the views |
| `MemoryCatalog.Catalog.DropView` | crates/zelox-catalog-memory/src/provider.rs:495-519 | as for tables, among the views |
| `MemoryCatalog.AlterInPlace` | crates/zelox-catalog-memory/src/provider.rs:311-398 | the loops and updates of each alteration compute its value-level definition |
| `MemoryCatalog.DropColumnsLoop` | crates/zelox-catalog-memory/src/provider.rs:368-381 | the nested check-then-retain loop computes the recursive removal of columns |
| `MemoryCatalog.DropAllExact` | crates/zelox-catalog-memory/src/provider.rs:368-381 | DROP COLUMNS without IF EXISTS succeeds if and only if all names exist and none is repeated |
| `MemoryCatalog.AlterTypeExact` | crates/zelox-common-datafusion/src/catalog/status.rs:257-274 | for every path, the empty one included, ALTER COLUMN TYPE succeeds exactly on paths that resolve, gives the addressed field the new type and keeps its name and nullability, and leaves the table alone on failure |
| `MemoryCatalog.AlterTypeElsewhere` | crates/zelox-common-datafusion/src/catalog/status.rs:257-274 | a field on any path that turns off is as it was, whether the change succeeded or not |
| `MemoryCatalog.NextKeepsFiled` | crates/zelox-catalog-memory/src/provider.rs:58-519 | every operation keeps every database, table and view stored under its own name, catalog, database and kind |
| `MemoryCatalog.RunKeepsFiled` | crates/zelox-catalog-memory/src/provider.rs:58-519 | so does every run |
| `MemoryCatalog.ViewArmUnreachable` | crates/zelox-catalog-memory/src/provider.rs:400-402 | in every reachable catalog ALTER TABLE answers NotSupported if and only if the table exists and the alteration is a rename |
| `MemoryCatalog.RunLeavesAlone` | crates/zelox-catalog-memory/src/provider.rs:58-519 | a run leaves a table or view as it was unless an operation names it or drops its database |
| `MemoryCatalog.RunKeepsUnique` | crates/zelox-catalog-memory/src/provider.rs:319-343 | if no table is created with a repeated property key, keys are unique in every stored table of every run |
| `CatalogsAgree.ChangeInMemoryIsList` | crates/zelox-catalog-memory/src/provider.rs:300-343 | a run of property changes through the catalog is the run on the table's own list and touches nothing else of the entry |
| `CatalogsAgree.ChangeTableIsRun` | crates/zelox-catalog-hms/src/provider.rs:1046-1115 | the Metastore side of such a run is a run of its alter calls |
| `CatalogsAgree.SameChangesSameProperties` | crates/zelox-catalog-memory/src/provider.rs:152-343 | the same table created in both catalogs, starting alike (`HmsLifecycle.CreatedAlike` says exactly when), and put through the same changes of non-reserved keys: the runs succeed together, and then both show the same properties |

## Left out

- The streaming, checkpoint and exactly-once engine the repository describes: its source is not part of this model.
- Thrift, AWS, HTTP, DNS and Kerberos calls, and fetching credentials: their outcomes are chosen by the environment.
- The Metastore itself: a stored definition is assumed to be returned as it was stored, and `LostReplies` assumes one metastore and no other writer.
- Dropping with PURGE and its fallback, and retrying an UNSET: the fallback starts the attempt count again, and a retried UNSET is not idempotent.
- Namespaces of more than one part, which the Metastore catalog refuses before anything else.
- Views of the Metastore catalog, database operations, listing and renaming there: thin wrappers around calls.
- The moka caches, the Iceberg and OneLake providers, Glue's Iceberg types: their logic is mostly in other libraries.
- `serde_json`'s text format, including its nesting limit of 128: `TextCodec.Faithful` stands for reading back what was written.
- Pattern matching of names: it depends on the semantics of a regular-expression library.
- Error messages and time stamps: only the kind of an error is kept.
- The 32-bit depth counters of the splitters: depths are unbounded integers, so texts with two billion open brackets are not covered.
- The storage classes of a format: a parameter; only the logical format is followed.
- Physical planning of filters: assumed to resolve names to positions and keep the expression's shape.
- Unity's display text of a type, and reading a column without a stored type name.
- The fetch limit of a system-table scan: `FilterPushdown.ScanRow` looks at one row; rows after the limit is reached are not looked at.
- HiveRoundTrip.ParseInvertsPrint: `ToLower` lowers ASCII capitals only, so a name with another capital keeps it where the source lowers it; white space is modelled in full.
- HiveRoundTrip.HiveParseInvertsPrint: lowers ASCII capitals only, as above; names that are not tame are the subject of `HiveExact.HiveReadsBackExactly`.
- HiveRoundTrip.GlueParseInvertsPrint: lowers ASCII capitals only, as above; names that are not tame are the subject of `GlueExact.GlueReadsBackExactly`.
- HiveRoundTrip.ParseIgnoresCase: the case of ASCII letters only, as above.
- HiveRoundTrip.PrintNormal: lowers ASCII capitals only, as above.
- HiveImage.ParseInImage: lower-case means without ASCII capitals, as above.
- HmsCreateRead.CreateThenRead: needs the schema text to be shorter than the largest machine integer, because the number of parts is read back as one; the properties are reported as a map, where the source lists them sorted by key.
- FailoverCall.ClientCache.WithFailover: one call without other tasks; concurrency is the subject of `Failover`, of which this call is shown to be a run.
- LostReplies.CreateTable: ends before the read that makes up the call's answer; `HmsCreateRead.CreateCallExact` has that read, for a call whose messages all arrive.
- PropertyList.RunsAgree: stops at the first failing change, because after it the catalogs can differ; `FailedUnset` says exactly when.
