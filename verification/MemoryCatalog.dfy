/** The in-memory catalog: databases, and inside each one its tables and its views. */
module MemoryCatalog {
  import opened Arrow
  import opened Text
  import opened LargeProperty
  import opened PartitionColumns
  import HmsTable
  import opened QuotedNames
  import opened PropertyList
  import ColumnPath

  type Column = HmsTable.Column
  type ColumnStatus = HmsTable.ColumnStatus

  datatype DatabaseStatus = DatabaseStatus(catalog: string, database: Namespace, comment: Option<string>,
                                           location: Option<string>, properties: Properties)

  datatype Constraint =
    | Unique(name: Option<string>, columns: seq<string>)
    | PrimaryKey(name: Option<string>, columns: seq<string>)

  datatype Sort = Sort(column: string, ascending: bool)

  datatype BucketBy = BucketBy(columns: seq<string>, buckets: nat)

  /** What a table carries besides columns and properties. */
  datatype Details = Details(comment: Option<string>, constraints: seq<Constraint>, location: Option<string>,
                             format: string, isExternal: bool, partitionBy: seq<PartitionField>,
                             sortBy: seq<Sort>, bucketBy: Option<BucketBy>)

  datatype Table = Table(columns: seq<ColumnStatus>, details: Details, properties: Properties)

  datatype View = View(columns: seq<ColumnStatus>, definition: string, comment: Option<string>,
                       properties: Properties)

  datatype Kind = TableKind(table: Table) | ViewKind(view: View)

  datatype Entry = Entry(catalog: string, database: Namespace, name: string, kind: Kind)

  datatype Database = Database(status: DatabaseStatus, tables: map<string, Entry>, views: map<string, Entry>)

  type Databases = map<Namespace, Database>

  datatype TableOptions = TableOptions(columns: seq<Column>, details: Details, ifNotExists: bool, replace: bool,
                                       properties: Properties)

  datatype ViewColumn = ViewColumn(name: string, dataType: DataType, nullable: bool, comment: Option<string>)

  datatype ViewOptions = ViewOptions(columns: seq<ViewColumn>, definition: string, ifNotExists: bool, replace: bool,
                                     comment: Option<string>, properties: Properties)

  datatype Alteration =
    | ChangeProperties(change: PropertyChange)
    | AlterColumnType(path: seq<string>, dataType: DataType)
    | AddColumns(columns: seq<Column>)
    | DropColumns(names: seq<seq<string>>, ifExists: bool)
    | RenameColumn(oldName: seq<string>, newName: seq<string>)
    | RenameTable

  // Columns

  predicate NamesColumn(names: seq<string>, column: string) {
    exists i :: 0 <= i < |names| && ToLower(names[i]) == ToLower(column)
  }

  function TableColumn(c: Column, details: Details): ColumnStatus {
    HmsTable.ColumnStatus(c.name, c.dataType, c.nullable, c.comment, c.default, c.generatedAs,
                 NamesColumn(PartitionNames(details.partitionBy), c.name),
                 details.bucketBy.Some? && NamesColumn(details.bucketBy.value.columns, c.name), false)
  }

  function TableColumns(columns: seq<Column>, details: Details): seq<ColumnStatus> {
    seq(|columns|, i requires 0 <= i < |columns| => TableColumn(columns[i], details))
  }

  function ViewColumns(columns: seq<ViewColumn>): seq<ColumnStatus> {
    seq(|columns|, i requires 0 <= i < |columns| =>
      var c := columns[i];
      HmsTable.ColumnStatus(c.name, c.dataType, c.nullable, c.comment, None, None, false, false, false))
  }

  function AddedColumns(columns: seq<Column>): seq<ColumnStatus> {
    seq(|columns|, i requires 0 <= i < |columns| =>
      var c := columns[i];
      HmsTable.ColumnStatus(c.name, c.dataType, c.nullable, c.comment, c.default, c.generatedAs, false, false, false))
  }

  predicate HasColumn(columns: seq<ColumnStatus>, name: string) {
    exists i :: 0 <= i < |columns| && columns[i].name == name
  }

  function WithoutColumn(columns: seq<ColumnStatus>, name: string): seq<ColumnStatus> {
    if columns == [] then []
    else if columns[0].name == name then WithoutColumn(columns[1..], name)
    else [columns[0]] + WithoutColumn(columns[1..], name)
  }

  /** A dotted name is looked up as one top-level column name. */
  function DropAll(columns: seq<ColumnStatus>, names: seq<seq<string>>, ifExists: bool): (seq<ColumnStatus>, bool)
    decreases |names|
  {
    if names == [] then (columns, true)
    else
      var name := Join(names[0], ".");
      if !HasColumn(columns, name) && !ifExists then (columns, false)
      else DropAll(WithoutColumn(columns, name), names[1..], ifExists)
  }

  function FindColumn(columns: seq<ColumnStatus>, name: string): (r: Option<nat>)
    ensures r.Some? ==> r.value < |columns| && columns[r.value].name == name
    ensures r.Some? ==> forall i :: 0 <= i < r.value ==> columns[i].name != name
    ensures r.None? <==> !HasColumn(columns, name)
  {
    if columns == [] then None
    else if columns[0].name == name then Some(0)
    else
      assert HasColumn(columns, name) <==> HasColumn(columns[1..], name) by {
        assert forall i :: 0 <= i < |columns[1..]| ==> columns[1..][i] == columns[i + 1];
        assert forall i :: 0 < i < |columns| ==> columns[i] == columns[1..][i - 1];
      }
      match FindColumn(columns[1..], name)
      case None => None
      case Some(i) => Some(i + 1)
  }

  /** A table after an alteration, and how the alteration ended; what a failing one did stays done. */
  function AlterBody(table: Table, alteration: Alteration): (Table, Result<()>) {
    match alteration
    case ChangeProperties(change) =>
      var r := ChangeList(table.properties, change);
      (table.(properties := r.0), if r.1 then Ok(()) else Err(NotFound))
    case AlterColumnType(path, dataType) =>
      if path == [] then (table, Err(InvalidArgument))
      else
        (match FindColumn(table.columns, path[0])
         case None => (table, Err(InvalidArgument))
         case Some(i) =>
           match ColumnPath.Alter(table.columns[i].dataType, path[1..], dataType)
           case Err(_) => (table, Err(InvalidArgument))
           case Ok(t) => (table.(columns := table.columns[i := table.columns[i].(dataType := t)]), Ok(())))
    case AddColumns(columns) => (table.(columns := table.columns + AddedColumns(columns)), Ok(()))
    case DropColumns(names, ifExists) =>
      var r := DropAll(table.columns, names, ifExists);
      (table.(columns := r.0), if r.1 then Ok(()) else Err(NotFound))
    case RenameColumn(oldName, newName) =>
      (match FindColumn(table.columns, Join(oldName, "."))
       case None => (table, Err(NotFound))
       case Some(i) =>
         (table.(columns := table.columns[i := table.columns[i].(name := Join(newName, "."))]), Ok(())))
    case RenameTable => (table, Err(NotSupported))
  }

  function AlterKind(kind: Kind, alteration: Alteration): (Kind, Result<()>) {
    match kind
    case ViewKind(_) => (kind, Err(NotSupported))
    case TableKind(table) =>
      var r := AlterBody(table, alteration);
      (TableKind(r.0), r.1)
  }

  // Looking entries up

  function TableAt(dbs: Databases, ns: Namespace, name: string): Option<Entry> {
    if ns in dbs && name in dbs[ns].tables then Some(dbs[ns].tables[name]) else None
  }

  function ViewAt(dbs: Databases, ns: Namespace, name: string): Option<Entry> {
    if ns in dbs && name in dbs[ns].views then Some(dbs[ns].views[name]) else None
  }

  // The operations on values

  function PutTable(dbs: Databases, ns: Namespace, name: string, entry: Entry): Databases
    requires ns in dbs
  {
    dbs[ns := dbs[ns].(tables := dbs[ns].tables[name := entry])]
  }

  function PutView(dbs: Databases, ns: Namespace, name: string, entry: Entry): Databases
    requires ns in dbs
  {
    dbs[ns := dbs[ns].(views := dbs[ns].views[name := entry])]
  }

  predicate TransformRefused(options: TableOptions) {
    ToLower(options.details.format) != "iceberg" &&
    exists i :: 0 <= i < |options.details.partitionBy| && options.details.partitionBy[i].transform.Some?
  }

  function NewTable(catalog: string, ns: Namespace, name: string, options: TableOptions): Entry {
    Entry(catalog, ns, name,
          TableKind(Table(TableColumns(options.columns, options.details), options.details, options.properties)))
  }

  function TableCreated(catalog: string, dbs: Databases, ns: Namespace, name: string, options: TableOptions)
    : (Databases, Result<Entry>)
  {
    if TransformRefused(options) then (dbs, Err(NotSupported))
    else if ns !in dbs then (dbs, Err(NotFound))
    else if name in dbs[ns].tables && options.ifNotExists then (dbs, Ok(dbs[ns].tables[name]))
    else if name in dbs[ns].tables && !options.replace then (dbs, Err(AlreadyExists))
    else
      var entry := NewTable(catalog, ns, name, options);
      (PutTable(dbs, ns, name, entry), Ok(entry))
  }

  function NewView(catalog: string, ns: Namespace, name: string, options: ViewOptions): Entry {
    Entry(catalog, ns, name,
          ViewKind(View(ViewColumns(options.columns), options.definition, options.comment, options.properties)))
  }

  function ViewCreated(catalog: string, dbs: Databases, ns: Namespace, name: string, options: ViewOptions)
    : (Databases, Result<Entry>)
  {
    if ns !in dbs then (dbs, Err(NotFound))
    else if name in dbs[ns].views && options.ifNotExists then (dbs, Ok(dbs[ns].views[name]))
    else if name in dbs[ns].views && !options.replace then (dbs, Err(AlreadyExists))
    else
      var entry := NewView(catalog, ns, name, options);
      (PutView(dbs, ns, name, entry), Ok(entry))
  }

  function TableAltered(dbs: Databases, ns: Namespace, name: string, alteration: Alteration): (Databases, Result<()>) {
    if TableAt(dbs, ns, name).None? then (dbs, Err(NotFound))
    else
      var entry := dbs[ns].tables[name];
      var r := AlterKind(entry.kind, alteration);
      (PutTable(dbs, ns, name, entry.(kind := r.0)), r.1)
  }

  // The catalog as an object

  class Catalog {
    const name: string
    var databases: Databases

    constructor (name: string, initial: Namespace, comment: Option<string>)
      ensures this.name == name && databases == Start(name, initial, comment)
    {
      this.name := name;
      databases := map[initial := Database(DatabaseStatus(name, initial, comment, None, []), map[], map[])];
    }

    method CreateDatabase(ns: Namespace, ifNotExists: bool, comment: Option<string>, location: Option<string>,
                          properties: Properties) returns (r: Result<DatabaseStatus>)
      modifies this
      ensures r.Ok? <==> ns !in old(databases) || ifNotExists
      ensures r.Ok? ==> ns in databases && r.value == databases[ns].status
      ensures databases == Next(name, old(databases), DoCreateDatabase(ns, comment, location, properties))
    {
      if ns in databases {
        return if ifNotExists then Ok(databases[ns].status) else Err(AlreadyExists);
      }
      var status := DatabaseStatus(name, ns, comment, location, properties);
      databases := databases[ns := Database(status, map[], map[])];
      return Ok(status);
    }

    method DropDatabase(ns: Namespace, ifExists: bool) returns (r: Result<()>)
      modifies this
      ensures r == if ns in old(databases) || ifExists then Ok(()) else Err(NotFound)
      ensures databases == Next(name, old(databases), DoDropDatabase(ns))
    {
      if ns !in databases {
        return if ifExists then Ok(()) else Err(NotFound);
      }
      databases := databases - {ns};
      return Ok(());
    }

    method CreateTable(ns: Namespace, table: string, options: TableOptions) returns (r: Result<Entry>)
      modifies this
      ensures (databases, r) == TableCreated(name, old(databases), ns, table, options)
      ensures r.Ok? ==> TableAt(databases, ns, table) == Some(r.value)
    {
      var refused := false;
      if ToLower(options.details.format) != "iceberg" {
        for i := 0 to |options.details.partitionBy|
          invariant !refused ==> forall j :: 0 <= j < i ==> options.details.partitionBy[j].transform.None?
          invariant refused ==> exists j :: 0 <= j < i && options.details.partitionBy[j].transform.Some?
        {
          refused := refused || options.details.partitionBy[i].transform.Some?;
        }
      }
      if refused {
        return Err(NotSupported);
      }
      if ns !in databases {
        return Err(NotFound);
      }
      var db := databases[ns];
      if table in db.tables {
        if options.ifNotExists {
          return Ok(db.tables[table]);
        } else if options.replace {
          db := db.(tables := db.tables - {table});
        } else {
          return Err(AlreadyExists);
        }
      }
      var columns := [];
      for i := 0 to |options.columns|
        invariant columns == TableColumns(options.columns, options.details)[..i]
      {
        columns := columns + [TableColumn(options.columns[i], options.details)];
      }
      assert columns == TableColumns(options.columns, options.details);
      var status := Entry(name, ns, table, TableKind(Table(columns, options.details, options.properties)));
      db := db.(tables := db.tables[table := status]);
      databases := databases[ns := db];
      assert db.tables == old(databases)[ns].tables[table := status];
      return Ok(status);
    }

    method DropTable(ns: Namespace, table: string, ifExists: bool) returns (r: Result<()>)
      modifies this
      ensures r == if TableAt(old(databases), ns, table).Some? || ifExists then Ok(()) else Err(NotFound)
      ensures TableAt(databases, ns, table) == None
      ensures databases == Next(name, old(databases), DoDropTable(ns, table))
    {
      if ns !in databases {
        return if ifExists then Ok(()) else Err(NotFound);
      }
      var db := databases[ns];
      var existed := table in db.tables;
      databases := databases[ns := db.(tables := db.tables - {table})];
      return if existed || ifExists then Ok(()) else Err(NotFound);
    }

    method AlterTable(ns: Namespace, table: string, alteration: Alteration) returns (r: Result<()>)
      modifies this
      ensures (databases, r) == TableAltered(old(databases), ns, table, alteration)
    {
      if ns !in databases {
        return Err(NotFound);
      }
      if table !in databases[ns].tables {
        return Err(NotFound);
      }
      var entry := databases[ns].tables[table];
      var kind := entry.kind;
      match kind {
        case ViewKind(_) =>
          r := Err(NotSupported);
        case TableKind(body) =>
          var altered;
          altered, r := AlterInPlace(body, alteration);
          kind := TableKind(altered);
      }
      databases := databases[ns := databases[ns].(tables := databases[ns].tables[table := entry.(kind := kind)])];
    }

    method CreateView(ns: Namespace, view: string, options: ViewOptions) returns (r: Result<Entry>)
      modifies this
      ensures (databases, r) == ViewCreated(name, old(databases), ns, view, options)
      ensures r.Ok? ==> ViewAt(databases, ns, view) == Some(r.value)
    {
      if ns !in databases {
        return Err(NotFound);
      }
      var db := databases[ns];
      if view in db.views {
        if options.ifNotExists {
          return Ok(db.views[view]);
        } else if options.replace {
          db := db.(views := db.views - {view});
        } else {
          return Err(AlreadyExists);
        }
      }
      var status := NewView(name, ns, view, options);
      db := db.(views := db.views[view := status]);
      databases := databases[ns := db];
      assert db.views == old(databases)[ns].views[view := status];
      return Ok(status);
    }

    method DropView(ns: Namespace, view: string, ifExists: bool) returns (r: Result<()>)
      modifies this
      ensures r == if ViewAt(old(databases), ns, view).Some? || ifExists then Ok(()) else Err(NotFound)
      ensures ViewAt(databases, ns, view) == None
      ensures databases == Next(name, old(databases), DoDropView(ns, view))
    {
      if ns !in databases {
        return if ifExists then Ok(()) else Err(NotFound);
      }
      var db := databases[ns];
      var existed := view in db.views;
      databases := databases[ns := db.(views := db.views - {view})];
      return if existed || ifExists then Ok(()) else Err(NotFound);
    }
  }

  /** The alteration of one table, loop by loop. */
  method AlterInPlace(table: Table, alteration: Alteration) returns (altered: Table, r: Result<()>)
    ensures (altered, r) == AlterBody(table, alteration)
  {
    altered := table;
    match alteration {
      case ChangeProperties(Set(pairs)) =>
        var properties := SetProperties(table.properties, pairs);
        altered, r := table.(properties := properties), Ok(());
      case ChangeProperties(Unset(keys, ifExists)) =>
        var properties, ok := UnsetProperties(table.properties, keys, ifExists);
        altered, r := table.(properties := properties), if ok then Ok(()) else Err(NotFound);
      case DropColumns(names, ifExists) =>
        var columns, ok := DropColumnsLoop(table.columns, names, ifExists);
        altered, r := table.(columns := columns), if ok then Ok(()) else Err(NotFound);
      case AddColumns(columns) =>
        var all := table.columns;
        for i := 0 to |columns|
          invariant all == table.columns + AddedColumns(columns)[..i]
        {
          var c := columns[i];
          all := all + [HmsTable.ColumnStatus(c.name, c.dataType, c.nullable, c.comment, c.default, c.generatedAs,
                                     false, false, false)];
        }
        assert all == table.columns + AddedColumns(columns);
        altered, r := table.(columns := all), Ok(());
      case AlterColumnType(path, dataType) =>
        if path == [] {
          return table, Err(InvalidArgument);
        }
        var at := FindColumn(table.columns, path[0]);
        if at.None? {
          return table, Err(InvalidArgument);
        }
        var column := table.columns[at.value];
        if |path| > 1 {
          var t := ColumnPath.Alter(column.dataType, path[1..], dataType);
          if t.Err? {
            return table, Err(InvalidArgument);
          }
          column := column.(dataType := t.value);
        } else {
          column := column.(dataType := dataType);
        }
        altered, r := table.(columns := table.columns[at.value := column]), Ok(());
      case RenameColumn(oldName, newName) =>
        var at := FindColumn(table.columns, Join(oldName, "."));
        if at.None? {
          return table, Err(NotFound);
        }
        var column := table.columns[at.value].(name := Join(newName, "."));
        altered, r := table.(columns := table.columns[at.value := column]), Ok(());
      case RenameTable =>
        r := Err(NotSupported);
    }
  }

  /** The loop of DROP COLUMNS; on failure what was already dropped stays dropped. */
  method DropColumnsLoop(columns: seq<ColumnStatus>, names: seq<seq<string>>, ifExists: bool)
    returns (r: seq<ColumnStatus>, ok: bool)
    ensures (r, ok) == DropAll(columns, names, ifExists)
  {
    r := columns;
    assert names[0..] == names;
    for i := 0 to |names|
      invariant DropAll(r, names[i..], ifExists) == DropAll(columns, names, ifExists)
    {
      assert names[i..][0] == names[i] && names[i..][1..] == names[i + 1..];
      var name := Join(names[i], ".");
      if FindColumn(r, name).None? && !ifExists {
        return r, false;
      }
      var kept := [];
      for j := 0 to |r|
        invariant kept + WithoutColumn(r[j..], name) == WithoutColumn(r, name)
      {
        assert r[j..][0] == r[j] && r[j..][1..] == r[j + 1..];
        if r[j].name != name {
          kept := kept + [r[j]];
        }
      }
      assert kept == WithoutColumn(r, name);
      r := kept;
    }
    ok := true;
  }

  // Runs of the catalog

  datatype Op =
    | DoCreateDatabase(ns: Namespace, comment: Option<string>, location: Option<string>, properties: Properties)
    | DoDropDatabase(ns: Namespace)
    | DoCreateTable(ns: Namespace, name: string, tableOptions: TableOptions)
    | DoDropTable(ns: Namespace, name: string)
    | DoAlterTable(ns: Namespace, name: string, alteration: Alteration)
    | DoCreateView(ns: Namespace, name: string, viewOptions: ViewOptions)
    | DoDropView(ns: Namespace, name: string)

  function Next(catalog: string, dbs: Databases, op: Op): Databases {
    match op
    case DoCreateDatabase(ns, comment, location, properties) =>
      if ns in dbs then dbs
      else dbs[ns := Database(DatabaseStatus(catalog, ns, comment, location, properties), map[], map[])]
    case DoDropDatabase(ns) => dbs - {ns}
    case DoCreateTable(ns, name, options) => TableCreated(catalog, dbs, ns, name, options).0
    case DoDropTable(ns, name) =>
      if ns in dbs then dbs[ns := dbs[ns].(tables := dbs[ns].tables - {name})] else dbs
    case DoAlterTable(ns, name, alteration) => TableAltered(dbs, ns, name, alteration).0
    case DoCreateView(ns, name, options) => ViewCreated(catalog, dbs, ns, name, options).0
    case DoDropView(ns, name) =>
      if ns in dbs then dbs[ns := dbs[ns].(views := dbs[ns].views - {name})] else dbs
  }

  function Start(catalog: string, initial: Namespace, comment: Option<string>): Databases {
    map[initial := Database(DatabaseStatus(catalog, initial, comment, None, []), map[], map[])]
  }

  function Run(catalog: string, dbs: Databases, ops: seq<Op>): Databases
    decreases |ops|
  {
    if ops == [] then dbs else Run(catalog, Next(catalog, dbs, ops[0]), ops[1..])
  }

  // What every operation keeps

  predicate Filed(e: Entry, catalog: string, ns: Namespace, name: string) {
    e.catalog == catalog && e.database == ns && e.name == name
  }

  /** Every database, table and view is stored under its own name, tables among tables, views among views. */
  ghost predicate WellFiled(catalog: string, dbs: Databases) {
    && (forall ns :: ns in dbs ==> dbs[ns].status.catalog == catalog && dbs[ns].status.database == ns)
    && (forall ns, t :: ns in dbs && t in dbs[ns].tables ==>
          Filed(dbs[ns].tables[t], catalog, ns, t) && dbs[ns].tables[t].kind.TableKind?)
    && (forall ns, v :: ns in dbs && v in dbs[ns].views ==>
          Filed(dbs[ns].views[v], catalog, ns, v) && dbs[ns].views[v].kind.ViewKind?)
  }

  lemma PutTableKeepsFiled(catalog: string, dbs: Databases, ns: Namespace, name: string, entry: Entry)
    requires WellFiled(catalog, dbs) && ns in dbs && Filed(entry, catalog, ns, name) && entry.kind.TableKind?
    ensures WellFiled(catalog, PutTable(dbs, ns, name, entry))
  {
  }

  lemma PutViewKeepsFiled(catalog: string, dbs: Databases, ns: Namespace, name: string, entry: Entry)
    requires WellFiled(catalog, dbs) && ns in dbs && Filed(entry, catalog, ns, name) && entry.kind.ViewKind?
    ensures WellFiled(catalog, PutView(dbs, ns, name, entry))
  {
  }

  lemma AlterKeepsFiled(catalog: string, dbs: Databases, ns: Namespace, name: string, alteration: Alteration)
    requires WellFiled(catalog, dbs)
    ensures WellFiled(catalog, TableAltered(dbs, ns, name, alteration).0)
  {
    if TableAt(dbs, ns, name).Some? {
      var entry := dbs[ns].tables[name];
      PutTableKeepsFiled(catalog, dbs, ns, name, entry.(kind := AlterKind(entry.kind, alteration).0));
    }
  }

  lemma NextKeepsFiled(catalog: string, dbs: Databases, op: Op)
    requires WellFiled(catalog, dbs)
    ensures WellFiled(catalog, Next(catalog, dbs, op))
  {
    match op {
      case DoAlterTable(ns, name, alteration) =>
        AlterKeepsFiled(catalog, dbs, ns, name, alteration);
      case DoCreateTable(ns, name, options) =>
        if ns in dbs {
          PutTableKeepsFiled(catalog, dbs, ns, name, NewTable(catalog, ns, name, options));
        }
      case DoCreateView(ns, name, options) =>
        if ns in dbs {
          PutViewKeepsFiled(catalog, dbs, ns, name, NewView(catalog, ns, name, options));
        }
      case _ =>
    }
  }

  lemma {:induction false} RunKeepsFiled(catalog: string, dbs: Databases, ops: seq<Op>)
    requires WellFiled(catalog, dbs)
    ensures WellFiled(catalog, Run(catalog, dbs, ops))
    decreases |ops|
  {
    if ops != [] {
      NextKeepsFiled(catalog, dbs, ops[0]);
      RunKeepsFiled(catalog, Next(catalog, dbs, ops[0]), ops[1..]);
    }
  }

  /** In every reachable catalog ALTER TABLE is unsupported only for renaming: its view arm is dead. */
  lemma ViewArmUnreachable(catalog: string, initial: Namespace, comment: Option<string>, ops: seq<Op>,
                           ns: Namespace, name: string, alteration: Alteration)
    ensures var dbs := Run(catalog, Start(catalog, initial, comment), ops);
            && (TableAt(dbs, ns, name).Some? ==> TableAt(dbs, ns, name).value.kind.TableKind?)
            && (TableAltered(dbs, ns, name, alteration).1 == Err(NotSupported) <==>
                TableAt(dbs, ns, name).Some? && alteration.RenameTable?)
  {
    RunKeepsFiled(catalog, Start(catalog, initial, comment), ops);
  }

  // What an operation leaves alone

  predicate ReachesTable(op: Op, ns: Namespace, name: string) {
    match op
    case DoDropDatabase(n) => n == ns
    case DoCreateTable(n, t, _) => (n, t) == (ns, name)
    case DoDropTable(n, t) => (n, t) == (ns, name)
    case DoAlterTable(n, t, _) => (n, t) == (ns, name)
    case _ => false
  }

  predicate ReachesView(op: Op, ns: Namespace, name: string) {
    match op
    case DoDropDatabase(n) => n == ns
    case DoCreateView(n, v, _) => (n, v) == (ns, name)
    case DoDropView(n, v) => (n, v) == (ns, name)
    case _ => false
  }

  lemma NextLeavesAlone(catalog: string, dbs: Databases, op: Op, ns: Namespace, name: string)
    ensures var after := Next(catalog, dbs, op);
            && (!ReachesTable(op, ns, name) ==> TableAt(after, ns, name) == TableAt(dbs, ns, name))
            && (!ReachesView(op, ns, name) ==> ViewAt(after, ns, name) == ViewAt(dbs, ns, name))
  {
  }

  /** A run leaves a table or view alone unless an operation names it or drops its database. */
  lemma {:induction false} RunLeavesAlone(catalog: string, dbs: Databases, ops: seq<Op>, ns: Namespace, name: string)
    ensures var after := Run(catalog, dbs, ops);
            && ((forall i :: 0 <= i < |ops| ==> !ReachesTable(ops[i], ns, name)) ==>
                  TableAt(after, ns, name) == TableAt(dbs, ns, name))
            && ((forall i :: 0 <= i < |ops| ==> !ReachesView(ops[i], ns, name)) ==>
                  ViewAt(after, ns, name) == ViewAt(dbs, ns, name))
    decreases |ops|
  {
    if ops != [] {
      NextLeavesAlone(catalog, dbs, ops[0], ns, name);
      RunLeavesAlone(catalog, Next(catalog, dbs, ops[0]), ops[1..], ns, name);
    }
  }

  /** Property keys in every stored table stay unique if no table is created with a repeated key. */
  ghost predicate UniqueKeys(dbs: Databases) {
    forall ns, t :: ns in dbs && t in dbs[ns].tables && dbs[ns].tables[t].kind.TableKind? ==>
      DistinctKeys(dbs[ns].tables[t].kind.table.properties)
  }

  lemma NextKeepsUnique(catalog: string, dbs: Databases, op: Op)
    requires UniqueKeys(dbs) && (op.DoCreateTable? ==> DistinctKeys(op.tableOptions.properties))
    ensures UniqueKeys(Next(catalog, dbs, op))
  {
    if op.DoAlterTable? && TableAt(dbs, op.ns, op.name).Some? && op.alteration.ChangeProperties? {
      var kind := dbs[op.ns].tables[op.name].kind;
      if kind.TableKind? {
        ChangeListUnique(kind.table.properties, op.alteration.change);
      }
    }
  }

  lemma {:induction false} RunKeepsUnique(catalog: string, dbs: Databases, ops: seq<Op>)
    requires UniqueKeys(dbs)
    requires forall i :: 0 <= i < |ops| && ops[i].DoCreateTable? ==> DistinctKeys(ops[i].tableOptions.properties)
    ensures UniqueKeys(Run(catalog, dbs, ops))
    decreases |ops|
  {
    if ops != [] {
      NextKeepsUnique(catalog, dbs, ops[0]);
      RunKeepsUnique(catalog, Next(catalog, dbs, ops[0]), ops[1..]);
    }
  }

  // Changing a column's type

  /** The field a path leads to from the columns; the first column of a name counts. */
  function FieldAt(columns: seq<ColumnStatus>, path: seq<string>): Option<Field>
    requires path != []
  {
    match FindColumn(columns, path[0])
    case None => None
    case Some(i) =>
      if |path| == 1 then Some(PlainField(columns[i].name, columns[i].dataType, columns[i].nullable))
      else ColumnPath.FieldAt(columns[i].dataType, path[1..])
  }

  predicate Resolves(columns: seq<ColumnStatus>, path: seq<string>) {
    path != [] &&
    var at := FindColumn(columns, path[0]);
    at.Some? && ColumnPath.Resolves(columns[at.value].dataType, path[1..])
  }

  lemma {:induction false} FindUpdated(columns: seq<ColumnStatus>, i: nat, column: ColumnStatus, name: string)
    requires i < |columns| && column.name == columns[i].name
    ensures FindColumn(columns[i := column], name) == FindColumn(columns, name)
  {
    if i > 0 {
      assert columns[i := column][1..] == columns[1..][i - 1 := column];
      FindUpdated(columns[1..], i - 1, column, name);
    } else {
      assert columns[i := column][1..] == columns[1..];
    }
  }

  /**
  ALTER COLUMN TYPE works exactly on paths that resolve, the empty path not being one; then
  the addressed field has the new type and its old name and nullability, and a failed change
  leaves the table as it was.
  */
  lemma AlterTypeExact(table: Table, path: seq<string>, dataType: DataType)
    ensures var r := AlterBody(table, AlterColumnType(path, dataType));
            && (r.1.Ok? <==> Resolves(table.columns, path))
            && (r.1.Err? ==> r == (table, Err(InvalidArgument)))
            && (r.1.Ok? ==>
                  && FieldAt(table.columns, path).Some?
                  && FieldAt(r.0.columns, path) == Some(FieldAt(table.columns, path).value.(dataType := dataType)))
  {
    if path != [] {
      var r := AlterBody(table, AlterColumnType(path, dataType));
      var at := FindColumn(table.columns, path[0]);
      if at.Some? {
        var before := table.columns[at.value].dataType;
        ColumnPath.AlterSucceeds(before, path[1..], dataType);
        if r.1.Ok? {
          FindUpdated(table.columns, at.value, r.0.columns[at.value], path[0]);
          if |path| > 1 {
            ColumnPath.AlterThenRead(before, path[1..], dataType);
          }
        }
      }
    }
  }

  /** Every field on a path that turns off from the altered one is as it was, whether the change succeeded or not. */
  lemma AlterTypeElsewhere(table: Table, path: seq<string>, dataType: DataType, other: seq<string>)
    requires other != [] && ColumnPath.Diverge(path, other)
    ensures var r := AlterBody(table, AlterColumnType(path, dataType));
            FieldAt(r.0.columns, other) == FieldAt(table.columns, other)
  {
    var r := AlterBody(table, AlterColumnType(path, dataType));
    if r.1.Ok? {
      var i := FindColumn(table.columns, path[0]).value;
      FindUpdated(table.columns, i, r.0.columns[i], other[0]);
      if path[0] == other[0] {
        var j :| 0 <= j < |path| && j < |other| && path[j] != other[j];
        assert path[1..][j - 1] != other[1..][j - 1];
        ColumnPath.AlterElsewhere(table.columns[i].dataType, path[1..], dataType, other[1..]);
      }
    }
  }

  // Dropping columns

  lemma {:induction false} WithoutColumnExact(columns: seq<ColumnStatus>, name: string, other: string)
    ensures HasColumn(WithoutColumn(columns, name), other) <==> other != name && HasColumn(columns, other)
  {
    if columns != [] {
      var rest := columns[1..];
      assert forall i :: 0 <= i < |rest| ==> rest[i] == columns[i + 1];
      assert forall i :: 0 < i < |columns| ==> columns[i] == rest[i - 1];
      WithoutColumnExact(rest, name, other);
      if columns[0].name != name {
        var kept := WithoutColumn(rest, name);
        var all := [columns[0]] + kept;
        assert forall i :: 0 <= i < |kept| ==> kept[i] == all[i + 1];
        assert forall i :: 0 < i < |all| ==> all[i] == kept[i - 1];
      }
    }
  }

  function Dotted(names: seq<seq<string>>): seq<string> {
    seq(|names|, i requires 0 <= i < |names| => Join(names[i], "."))
  }

  /** DROP COLUMNS without IF EXISTS succeeds exactly when the names exist and none is repeated. */
  lemma {:induction false} DropAllExact(columns: seq<ColumnStatus>, names: seq<seq<string>>, ifExists: bool)
    ensures var r := DropAll(columns, names, ifExists);
            r.1 <==> ifExists || (Distinct(Dotted(names)) && forall n :: n in Dotted(names) ==> HasColumn(columns, n))
    decreases |names|
  {
    if names != [] {
      var name, rest := Join(names[0], "."), names[1..];
      var all := Dotted(names);
      assert all[1..] == Dotted(rest) && all[0] == name;
      assert all == [name] + Dotted(rest);
      DropAllExact(WithoutColumn(columns, name), rest, ifExists);
      forall other
        ensures HasColumn(WithoutColumn(columns, name), other) <==> other != name && HasColumn(columns, other)
      {
        WithoutColumnExact(columns, name, other);
      }
      assert Distinct(all) <==> Distinct(Dotted(rest)) && name !in Dotted(rest) by {
        assert forall i :: 0 <= i < |rest| ==> Dotted(rest)[i] == all[i + 1];
      }
      assert name in all;
    }
  }
}
