/** The Hive type string and the Spark schema JSON of one type describe the same type. */
module SerialisationsAgree {
  import opened Arrow
  import opened Text
  import opened HiveSyntax
  import H = HiveRoundTrip
  import S = SparkRoundTrip
  import SparkSchema

  /** Forgets what the Hive type string cannot say: nullability, comments, name case, missing zones. */
  function Erase(t: DataType): DataType
    decreases t, 1
  {
    if t.List? then List(EraseField(t.item))
    else if t.Struct? then Struct(EraseFields(t.fields))
    else if t.Map? then Map(EraseField(t.entries), t.sorted)
    else if t.Timestamp? && t.timezone.None? then Timestamp(t.unit, Some("UTC"))
    else t
  }

  function EraseField(f: Field): Field
    decreases f, 2
  {
    PlainField(ToLower(f.name), Erase(f.dataType), true)
  }

  function EraseFields(fields: seq<Field>): (r: seq<Field>)
    ensures |r| == |fields|
    decreases fields, 0
  {
    if fields == [] then [] else [EraseField(fields[0])] + EraseFields(fields[1..])
  }

  lemma {:induction false} EraseList(t: DataType, u: DataType)
    requires t.List? && u.List? && t.item.name == u.item.name
    requires Erase(t.item.dataType) == Erase(u.item.dataType)
    ensures Erase(t) == Erase(u)
  {
  }

  lemma {:induction false} EraseStruct(fields: seq<Field>, others: seq<Field>)
    requires EraseFields(fields) == EraseFields(others)
    ensures Erase(Struct(fields)) == Erase(Struct(others))
  {
  }

  lemma {:induction false} EraseMap(t: DataType, u: DataType)
    requires t.IsKeyValueMap() && u.IsKeyValueMap()
    requires t.sorted == u.sorted && t.entries.name == u.entries.name
    requires t.KeyField().name == u.KeyField().name && t.ValueField().name == u.ValueField().name
    requires Erase(t.KeyField().dataType) == Erase(u.KeyField().dataType)
    requires Erase(t.ValueField().dataType) == Erase(u.ValueField().dataType)
    ensures Erase(t) == Erase(u)
  {
    EraseTwo(t.entries.dataType.fields);
    EraseTwo(u.entries.dataType.fields);
    assert Erase(t.entries.dataType) == Erase(u.entries.dataType);
  }

  lemma {:induction false} EraseTwo(fields: seq<Field>)
    requires |fields| == 2
    ensures EraseFields(fields) == [EraseField(fields[0]), EraseField(fields[1])]
  {
    assert EraseFields(fields) == [EraseField(fields[0])] + EraseFields(fields[1..]);
    assert EraseFields(fields[1..]) == [EraseField(fields[1])] + EraseFields(fields[1..][1..]);
  }

  /** Types with a Spark schema form have normal forms that agree. */
  lemma {:induction false} NormalsAgree(t: DataType)
    requires S.TreeOf(t).Ok?
    ensures Erase(H.Normal(Hive, t)) == Erase(S.Normal(t))
    decreases t, 1
  {
    if t.IsList() {
      ListsAgree(t);
    } else if t.Struct? {
      StructsAgree(t);
    } else if t.Map? {
      MapsAgree(t);
    } else if t.Dictionary? {
      NormalsAgree(t.values);
    } else {
      LeavesAgree(t);
    }
  }

  lemma LeavesAgree(t: DataType)
    requires !t.IsList() && !t.Struct? && !t.Map? && !t.Dictionary? && S.TreeOf(t).Ok?
    ensures Erase(H.Normal(Hive, t)) == Erase(S.Normal(t))
  {
    if t.IsInteger() {
      IntegersAgree(t);
    }
  }

  lemma IntegersAgree(t: DataType)
    requires t.IsInteger()
    ensures S.TreeOf(t).Ok? ==> Erase(H.Normal(Hive, t)) == Erase(S.Normal(t))
  {
  }

  lemma {:induction false} ListsAgree(t: DataType)
    requires t.IsList() && S.TreeOf(t).Ok?
    ensures Erase(H.Normal(Hive, t)) == Erase(S.Normal(t))
    decreases t, 0
  {
    NormalsAgree(t.item.dataType);
    EraseList(H.Normal(Hive, t), S.Normal(t));
  }

  lemma {:induction false} StructsAgree(t: DataType)
    requires t.Struct? && S.TreeOf(t).Ok?
    ensures Erase(H.Normal(Hive, t)) == Erase(S.Normal(t))
    decreases t, 0
  {
    FieldsAgree(t.fields);
    EraseStruct(H.NormalFields(Hive, t.fields), S.NormalFields(t.fields));
  }

  lemma {:induction false} MapsAgree(t: DataType)
    requires t.Map? && S.TreeOf(t).Ok?
    ensures Erase(H.Normal(Hive, t)) == Erase(S.Normal(t))
    decreases t, 0
  {
    NormalsAgree(t.entries.dataType.fields[0].dataType);
    NormalsAgree(t.entries.dataType.fields[1].dataType);
    EraseMap(H.Normal(Hive, t), S.Normal(t));
  }

  lemma {:induction false} FieldsAgree(fields: seq<Field>)
    requires S.BranchesOf(fields).Ok?
    ensures EraseFields(H.NormalFields(Hive, fields)) == EraseFields(S.NormalFields(fields))
    decreases fields, 0
  {
    if fields != [] {
      NormalsAgree(fields[0].dataType);
      FieldsAgree(fields[1..]);
      LowerIdempotent(fields[0].name);
      assert H.NormalFields(Hive, fields)[1..] == H.NormalFields(Hive, fields[1..]);
      assert S.NormalFields(fields)[1..] == S.NormalFields(fields[1..]);
    }
  }
}
