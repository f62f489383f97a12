/** Changing the type at a path inside a column, as the in-memory catalog's ALTER COLUMN TYPE does. */
module ColumnPath {
  import opened Arrow

  /** `alter_nested_data_type`: every field of the named step is changed, whatever its position. */
  function Alter(current: DataType, path: seq<string>, newType: DataType): Result<DataType>
    decreases |path|, 2
  {
    if path == [] then Ok(newType)
    else if current.Struct? then
      var altered :- AlterFields(current.fields, path, newType);
      if HasField(current.fields, path[0]) then Ok(Struct(altered)) else Err(InvalidArgument)
    else if current.List? && path[0] == "element" then
      var t :- Alter(current.item.dataType, path[1..], newType);
      Ok(List(current.item.(dataType := t)))
    else if current.LargeList? && path[0] == "element" then
      var t :- Alter(current.item.dataType, path[1..], newType);
      Ok(LargeList(current.item.(dataType := t)))
    else if current.Map? && current.entries.dataType.Struct? then
      var entries := current.entries;
      var altered :- AlterFields(entries.dataType.fields, path, newType);
      if HasField(entries.dataType.fields, path[0])
      then Ok(Map(Field(entries.name, Struct(altered), false, entries.metadata), current.sorted))
      else Err(InvalidArgument)
    else Err(InvalidArgument)
  }

  function AlterFields(fields: seq<Field>, path: seq<string>, newType: DataType): (r: Result<seq<Field>>)
    requires path != []
    ensures r.Ok? ==> |r.value| == |fields|
    decreases |path|, 1, |fields|
  {
    if fields == [] then Ok([])
    else
      var first :- AlterField(fields[0], path, newType);
      var rest :- AlterFields(fields[1..], path, newType);
      Ok([first] + rest)
  }

  function AlterField(field: Field, path: seq<string>, newType: DataType): Result<Field>
    requires path != []
    decreases |path|, 0
  {
    if field.name != path[0] then Ok(field)
    else
      var t :- Alter(field.dataType, path[1..], newType);
      Ok(field.(dataType := t))
  }

  predicate HasField(fields: seq<Field>, name: string) {
    exists i :: 0 <= i < |fields| && fields[i].name == name
  }

  // Reading a path

  /** The children a step can choose from; a list's item answers to the name "element". */
  function Children(t: DataType): seq<Field> {
    if t.Struct? then t.fields
    else if t.List? || t.LargeList? then [t.item.(name := "element")]
    else if t.Map? && t.entries.dataType.Struct? then t.entries.dataType.fields
    else []
  }

  function FirstNamed(fields: seq<Field>, name: string): (r: Option<Field>)
    ensures r.Some? <==> HasField(fields, name)
  {
    if fields == [] then None
    else if fields[0].name == name then Some(fields[0])
    else
      var r := FirstNamed(fields[1..], name);
      assert r.Some? ==> exists i :: 0 <= i < |fields[1..]| && fields[1..][i].name == name && fields[i + 1].name == name;
      assert HasField(fields, name) ==> HasField(fields[1..], name) by {
        if HasField(fields, name) {
          var i :| 0 <= i < |fields| && fields[i].name == name;
          assert fields[1..][i - 1].name == name;
        }
      }
      r
  }

  /** The field a non-empty path leads to. */
  function FieldAt(t: DataType, path: seq<string>): Option<Field>
    requires path != []
    decreases |path|
  {
    var child := FirstNamed(Children(t), path[0]);
    if child.None? || |path| == 1 then child else FieldAt(child.value.dataType, path[1..])
  }

  /** Every field a step can mean leads on along the rest of the path. */
  predicate Resolves(t: DataType, path: seq<string>)
    decreases |path|
  {
    path == [] || (HasField(Children(t), path[0]) && AllResolve(Children(t), path))
  }

  predicate AllResolve(fields: seq<Field>, path: seq<string>)
    requires path != []
    decreases |path|, 0
  {
    forall i :: 0 <= i < |fields| && fields[i].name == path[0] ==> Resolves(fields[i].dataType, path[1..])
  }

  predicate UniqueNames(fields: seq<Field>) {
    forall i, j :: 0 <= i < j < |fields| ==> fields[i].name != fields[j].name
  }

  /** On the way down the path, no two sibling fields share a name. */
  predicate UniqueAlong(t: DataType, path: seq<string>)
    decreases |path|
  {
    path == [] ||
    (&& UniqueNames(Children(t))
     && var child := FirstNamed(Children(t), path[0]);
        child.Some? ==> UniqueAlong(child.value.dataType, path[1..]))
  }

  // What altering does to the children of the node it starts at

  lemma {:induction false} AlterFieldsFirst(fields: seq<Field>, path: seq<string>, newType: DataType, name: string)
    requires path != [] && AlterFields(fields, path, newType).Ok?
    ensures var before := FirstNamed(fields, name);
            var after := FirstNamed(AlterFields(fields, path, newType).value, name);
            && before.Some? == after.Some?
            && (name != path[0] ==> after == before)
            && (before.Some? && name == path[0] ==>
                  var t := Alter(before.value.dataType, path[1..], newType);
                  t.Ok? && after == Some(before.value.(dataType := t.value)))
    decreases |fields|
  {
    if fields != [] {
      var altered := AlterFields(fields, path, newType).value;
      assert altered[1..] == AlterFields(fields[1..], path, newType).value;
      AlterFieldsFirst(fields[1..], path, newType, name);
    }
  }

  lemma AlterChildren(t: DataType, path: seq<string>, newType: DataType, name: string)
    requires path != [] && Alter(t, path, newType).Ok?
    ensures var before := FirstNamed(Children(t), name);
            var after := FirstNamed(Children(Alter(t, path, newType).value), name);
            && FirstNamed(Children(t), path[0]).Some?
            && before.Some? == after.Some?
            && (name != path[0] ==> after == before)
            && (before.Some? && name == path[0] ==>
                  var u := Alter(before.value.dataType, path[1..], newType);
                  u.Ok? && after == Some(before.value.(dataType := u.value)))
  {
    if t.Struct? {
      AlterFieldsFirst(t.fields, path, newType, name);
    } else if t.Map? {
      AlterFieldsFirst(t.entries.dataType.fields, path, newType, name);
    } else {
      assert t.List? || t.LargeList?;
    }
  }

  // The laws of a lens

  /** The addressed field gets the new type and keeps its name, nullability and metadata. */
  lemma {:induction false} AlterThenRead(t: DataType, path: seq<string>, newType: DataType)
    requires path != [] && Alter(t, path, newType).Ok?
    ensures var before, after := FieldAt(t, path), FieldAt(Alter(t, path, newType).value, path);
            before.Some? && after == Some(before.value.(dataType := newType))
    decreases |path|
  {
    AlterChildren(t, path, newType, path[0]);
    if |path| > 1 {
      AlterThenRead(FirstNamed(Children(t), path[0]).value.dataType, path[1..], newType);
    }
  }

  predicate Diverge(p: seq<string>, q: seq<string>) {
    exists i :: 0 <= i < |p| && i < |q| && p[i] != q[i]
  }

  /** A field on a path that turns off anywhere is left as it was, also if it was missing. */
  lemma {:induction false} AlterElsewhere(t: DataType, path: seq<string>, newType: DataType, other: seq<string>)
    requires path != [] && Alter(t, path, newType).Ok? && Diverge(path, other)
    ensures FieldAt(Alter(t, path, newType).value, other) == FieldAt(t, other)
    decreases |path|
  {
    AlterChildren(t, path, newType, other[0]);
    if path[0] == other[0] {
      var i :| 0 <= i < |path| && i < |other| && path[i] != other[i];
      assert path[1..][i - 1] != other[1..][i - 1];
      AlterElsewhere(FirstNamed(Children(t), path[0]).value.dataType, path[1..], newType, other[1..]);
    }
  }

  lemma {:induction false} FieldsSucceed(fields: seq<Field>, path: seq<string>, newType: DataType)
    requires path != []
    ensures AlterFields(fields, path, newType).Ok? <==> AllResolve(fields, path)
    decreases |path|, 0, |fields|
  {
    if fields != [] {
      if fields[0].name == path[0] {
        AlterSucceeds(fields[0].dataType, path[1..], newType);
      }
      FieldsSucceed(fields[1..], path, newType);
      assert AllResolve(fields, path) <==>
        (fields[0].name == path[0] ==> Resolves(fields[0].dataType, path[1..])) && AllResolve(fields[1..], path) by {
        assert forall i :: 0 <= i < |fields[1..]| ==> fields[1..][i] == fields[i + 1];
        assert forall i :: 0 < i < |fields| ==> fields[i] == fields[1..][i - 1];
      }
    }
  }

  /** Altering works exactly on the paths all of whose readings lead somewhere. */
  lemma {:induction false} AlterSucceeds(t: DataType, path: seq<string>, newType: DataType)
    ensures Alter(t, path, newType).Ok? <==> Resolves(t, path)
    decreases |path|, 1
  {
    if path != [] {
      if t.Struct? {
        FieldsSucceed(t.fields, path, newType);
      } else if t.Map? {
        if t.entries.dataType.Struct? {
          FieldsSucceed(t.entries.dataType.fields, path, newType);
        }
      } else if t.List? || t.LargeList? {
        ItemSucceeds(t, path, newType);
      }
    }
  }

  lemma {:induction false} ItemSucceeds(t: DataType, path: seq<string>, newType: DataType)
    requires path != [] && (t.List? || t.LargeList?)
    ensures Alter(t, path, newType).Ok? <==> Resolves(t, path)
    decreases |path|, 0
  {
    AlterSucceeds(t.item.dataType, path[1..], newType);
    var children := Children(t);
    assert children[0].name == "element" && children[0].dataType == t.item.dataType;
    assert HasField(children, path[0]) <==> path[0] == "element";
  }

  lemma {:induction false} FirstIsUnique(fields: seq<Field>, path: seq<string>)
    requires path != [] && UniqueNames(fields)
    ensures var child := FirstNamed(fields, path[0]);
            AllResolve(fields, path) <==> (child.Some? ==> Resolves(child.value.dataType, path[1..]))
    decreases |fields|
  {
    if fields != [] {
      var rest := fields[1..];
      assert forall i :: 0 <= i < |rest| ==> rest[i] == fields[i + 1];
      assert forall i :: 0 < i < |fields| ==> fields[i] == rest[i - 1];
      FirstIsUnique(rest, path);
      if fields[0].name == path[0] {
        assert forall i :: 0 < i < |fields| ==> fields[i].name != path[0];
      }
    }
  }

  /** With unique sibling names that is: exactly when the path leads to a field. */
  lemma {:induction false} UniqueResolves(t: DataType, path: seq<string>)
    requires path != [] && UniqueAlong(t, path)
    ensures Resolves(t, path) <==> FieldAt(t, path).Some?
    decreases |path|
  {
    FirstIsUnique(Children(t), path);
    var child := FirstNamed(Children(t), path[0]);
    if child.Some? && |path| > 1 {
      UniqueResolves(child.value.dataType, path[1..]);
    }
  }

  /** With a repeated name the first reading can lead to a field while altering is refused. */
  lemma RepeatedNameRefused(first: Field, second: Field, rest: seq<string>, newType: DataType)
    requires first.name == second.name && rest != []
    requires FieldAt(first.dataType, rest).Some? && !Resolves(second.dataType, rest)
    ensures var t, path := Struct([first, second]), [first.name] + rest;
            FieldAt(t, path).Some? && Alter(t, path, newType) == Err(InvalidArgument)
  {
    var fields, path := [first, second], [first.name] + rest;
    assert path[1..] == rest;
    assert fields[1].name == path[0];
    AlterSucceeds(Struct(fields), path, newType);
    AlterErrors(Struct(fields), path, newType);
  }

  /** Every refusal is of one kind. */
  lemma {:induction false} AlterErrors(t: DataType, path: seq<string>, newType: DataType)
    ensures Alter(t, path, newType).Err? ==> Alter(t, path, newType) == Err(InvalidArgument)
    decreases |path|, 1
  {
    if path != [] {
      if t.Struct? {
        FieldsErrors(t.fields, path, newType);
      } else if t.Map? && t.entries.dataType.Struct? {
        FieldsErrors(t.entries.dataType.fields, path, newType);
      } else if t.List? || t.LargeList? {
        AlterErrors(t.item.dataType, path[1..], newType);
      }
    }
  }

  lemma {:induction false} FieldsErrors(fields: seq<Field>, path: seq<string>, newType: DataType)
    requires path != []
    ensures var r := AlterFields(fields, path, newType); r.Err? ==> r == Err(InvalidArgument)
    decreases |path|, 0, |fields|
  {
    if fields != [] {
      AlterErrors(fields[0].dataType, path[1..], newType);
      FieldsErrors(fields[1..], path, newType);
    }
  }
}
