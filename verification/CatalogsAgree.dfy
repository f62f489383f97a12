/** One table in the in-memory catalog and in the Hive Metastore catalog, altered alike. */
module CatalogsAgree {
  import opened Arrow
  import opened Json
  import opened LargeProperty
  import opened PropertyList
  import opened QuotedNames
  import HmsTable
  import HmsAlter
  import H = HmsCreateRead
  import L = HmsLifecycle
  import M = MemoryCatalog
  import SparkSchema

  /** A run of property changes through the in-memory catalog, stopping at the first refusal. */
  function ChangeInMemory(dbs: M.Databases, ns: Namespace, name: string, changes: seq<PropertyChange>)
    : Option<M.Databases>
    decreases |changes|
  {
    if changes == [] then Some(dbs)
    else
      var r := M.TableAltered(dbs, ns, name, M.ChangeProperties(changes[0]));
      if r.1.Ok? then ChangeInMemory(r.0, ns, name, changes[1..]) else None
  }

  /** The catalog's run is the run on the table's own list, and touches nothing else of the entry. */
  lemma {:induction false} ChangeInMemoryIsList(dbs: M.Databases, ns: Namespace, name: string,
                                                changes: seq<PropertyChange>)
    requires var e := M.TableAt(dbs, ns, name); e.Some? && e.value.kind.TableKind?
    ensures var e := M.TableAt(dbs, ns, name).value;
            var list := ChangeListAll(e.kind.table.properties, changes);
            var after := ChangeInMemory(dbs, ns, name, changes);
            && (after.Some? <==> list.Some?)
            && (after.Some? ==>
                  M.TableAt(after.value, ns, name) ==
                  Some(e.(kind := M.TableKind(e.kind.table.(properties := list.value)))))
    decreases |changes|
  {
    if changes != [] {
      var e := M.TableAt(dbs, ns, name).value;
      var r := M.TableAltered(dbs, ns, name, M.ChangeProperties(changes[0]));
      var step := ChangeList(e.kind.table.properties, changes[0]);
      assert M.TableAt(r.0, ns, name) == Some(e.(kind := M.TableKind(e.kind.table.(properties := step.0))));
      if step.1 {
        ChangeInMemoryIsList(r.0, ns, name, changes[1..]);
      }
    }
  }

  /** The Metastore's run, as the calls of `alter_table` it consists of. */
  lemma {:induction false} ChangeTableIsRun(table: HmsTable.Table, changes: seq<PropertyChange>)
    requires ChangeTableAll(table, changes).Some?
    ensures HmsAlter.Run(table, Calls(changes)) == ChangeTableAll(table, changes).value
    decreases |changes|
  {
    if changes != [] {
      assert Calls(changes)[1..] == Calls(changes[1..]);
      ChangeTableIsRun(HmsAlter.ApplyAlter(table, changes[0].ForHms()).table, changes[1..]);
    }
  }

  function Calls(changes: seq<PropertyChange>): seq<HmsAlter.Call> {
    seq(|changes|, i requires 0 <= i < |changes| => HmsAlter.Call(changes[i].ForHms(), true))
  }

  /**
  The same table created in both catalogs, then put through the same changes of non-reserved
  properties. If both catalogs showed the same at the start, the two runs succeed together,
  and then both show the same properties; in memory no key is repeated if none was.
  */
  lemma SameChangesSameProperties(codec: TextCodec, version: string, storage: string -> HmsTable.StorageFormat,
                                  db: string, name: string, hms: H.CreateOptions,
                                  catalog: string, dbs: M.Databases, ns: Namespace, memory: M.TableOptions,
                                  changes: seq<PropertyChange>)
    requires H.CreateTable(codec, version, storage, db, name, hms).Ok?
    requires var schema := SparkSchema.SchemaToJson(HmsTable.ColumnFields(hms.columns));
             schema.Ok? ==> |codec.encode(schema.value)| < USIZE_MAX
    requires M.TableCreated(catalog, dbs, ns, name, memory).1.Ok? && M.TableAt(dbs, ns, name).None?
    requires memory.properties == hms.properties && L.SameStart(hms)
    requires forall i :: 0 <= i < |changes| ==> changes[i].Unreserved()
    ensures var table := H.CreateTable(codec, version, storage, db, name, hms).value;
            var created := M.TableCreated(catalog, dbs, ns, name, memory).0;
            var after := ChangeInMemory(created, ns, name, changes);
            && (after.Some? <==> ChangeTableAll(table, changes).Some?)
            && (after.Some? ==>
                  var stored := HmsAlter.Run(table, Calls(changes));
                  var e := M.TableAt(after.value, ns, name);
                  && e.Some? && e.value.kind.TableKind?
                  && (DistinctKeys(hms.properties) ==> DistinctKeys(e.value.kind.table.properties))
                  && AsMap(e.value.kind.table.properties) == HmsTable.VisibleProperties(stored.parameters))
  {
    var table := H.CreateTable(codec, version, storage, db, name, hms).value;
    var created := M.TableCreated(catalog, dbs, ns, name, memory).0;
    L.CreatedAlike(codec, version, storage, db, name, hms);
    RunsAgree(hms.properties, table, changes);
    ChangeInMemoryIsList(created, ns, name, changes);
    if ChangeTableAll(table, changes).Some? {
      ChangeTableIsRun(table, changes);
    }
  }
}
