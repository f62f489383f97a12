/** Spark schema JSON: the type printer and parser of the Hive Metastore catalog. */
module SparkSchema {
  import opened Arrow
  import opened Text
  import opened Json
  import opened HiveSyntax

  const COMMENT_KEY := "comment"

  // Printing

  datatype SparkWord =
    | SwVoid
    | SwBoolean
    | SwByte
    | SwShort
    | SwInteger
    | SwLong
    | SwFloat
    | SwDouble
    | SwString
    | SwBinary
    | SwDate
    | SwTimestamp
    | SwTimestampNtz

  function LeafWord(t: DataType): Option<SparkWord> {
    match t
    case Null => Some(SwVoid)
    case Boolean => Some(SwBoolean)
    case Int8 | UInt8 => Some(SwByte)
    case Int16 | UInt16 => Some(SwShort)
    case Int32 | UInt32 => Some(SwInteger)
    case Int64 | UInt64 => Some(SwLong)
    case Float16 | Float32 => Some(SwFloat)
    case Float64 => Some(SwDouble)
    case Utf8 | LargeUtf8 | Utf8View => Some(SwString)
    case Binary | FixedSizeBinary(_) | LargeBinary | BinaryView => Some(SwBinary)
    case Date32 | Date64 => Some(SwDate)
    case Timestamp(_, timezone) => Some(if timezone.Some? then SwTimestamp else SwTimestampNtz)
    case _ => None
  }

  function WordText(w: SparkWord): string {
    match w
    case SwVoid => "void"
    case SwBoolean => "boolean"
    case SwByte => "byte"
    case SwShort => "short"
    case SwInteger => "integer"
    case SwLong => "long"
    case SwFloat => "float"
    case SwDouble => "double"
    case SwString => "string"
    case SwBinary => "binary"
    case SwDate => "date"
    case SwTimestamp => "timestamp"
    case SwTimestampNtz => "timestamp_ntz"
  }

  function ArrayJson(element: Json, containsNull: bool): Json {
    JObject(map["type" := JString("array"), "elementType" := element, "containsNull" := JBool(containsNull)])
  }

  function StructJson(fields: seq<Json>): Json {
    JObject(map["type" := JString("struct"), "fields" := JArray(fields)])
  }

  function MapJson(key: Json, value: Json, valueContainsNull: bool): Json {
    JObject(map["type" := JString("map"), "keyType" := key, "valueType" := value,
                "valueContainsNull" := JBool(valueContainsNull)])
  }

  function CommentJson(comment: Option<string>): Json {
    JObject(if comment.Some? then map[COMMENT_KEY := JString(comment.value)] else map[])
  }

  function FieldJson(name: string, dataType: Json, nullable: bool, comment: Option<string>): Json {
    JObject(map["name" := JString(name), "type" := dataType, "nullable" := JBool(nullable),
                "metadata" := CommentJson(comment)])
  }

  function CommentOf(metadata: map<string, string>): Option<string> {
    if COMMENT_KEY in metadata then Some(metadata[COMMENT_KEY]) else None
  }

  /** `spark_data_type_json`. */
  function ToJson(t: DataType): Result<Json>
    decreases t, 1
  {
    if t.IsDecimal() then Ok(JString(DecimalText(t.precision, t.scale)))
    else if t.IsList() then
      var element :- ToJson(t.item.dataType);
      Ok(ArrayJson(element, t.item.nullable))
    else if t.Struct? then
      var items :- FieldsToJson(t.fields);
      Ok(StructJson(items))
    else if t.IsKeyValueMap() then
      var k :- ToJson(t.entries.dataType.fields[0].dataType);
      var v :- ToJson(t.entries.dataType.fields[1].dataType);
      Ok(MapJson(k, v, t.entries.dataType.fields[1].nullable))
    else if t.Map? then Err(InvalidArgument)
    else if t.Dictionary? then ToJson(t.values)
    else
      match LeafWord(t)
      case Some(w) => Ok(JString(WordText(w)))
      case None => Err(NotSupported)
  }

  function FieldsToJson(fields: seq<Field>): (r: Result<seq<Json>>)
    ensures r.Ok? ==> |r.value| == |fields|
    decreases fields, 0
  {
    if fields == [] then Ok([])
    else
      var first :- ToJson(fields[0].dataType);
      var rest :- FieldsToJson(fields[1..]);
      Ok([FieldJson(fields[0].name, first, fields[0].nullable, CommentOf(fields[0].metadata))] + rest)
  }

  // Parsing

  function WordType(name: string): Option<DataType> {
    if name == "void" then Some(Null)
    else if name == "boolean" then Some(Boolean)
    else if name == "byte" then Some(Int8)
    else if name == "short" then Some(Int16)
    else if name == "integer" then Some(Int32)
    else if name == "long" then Some(Int64)
    else if name == "float" then Some(Float32)
    else if name == "double" then Some(Float64)
    else if name == "string" then Some(Utf8)
    else if name == "binary" then Some(Binary)
    else if name == "date" then Some(Date32)
    else if name == "timestamp" then Some(UTC_MICROS)
    else if name == "timestamp_ntz" then Some(LOCAL_MICROS)
    else None
  }

  function NamedType(name: string): Result<DataType> {
    match WordType(name)
    case Some(t) => Ok(t)
    case None => if StartsWith(name, "decimal") then Parse(Hive, name) else Err(External)
  }

  function ListOf(element: DataType, nullable: bool): DataType {
    List(PlainField("item", element, nullable))
  }

  function MapWith(k: DataType, v: DataType, valueNullable: bool): (t: DataType)
    ensures t.IsKeyValueMap() && t.KeyField().dataType == k && t.ValueField().dataType == v
    ensures t.ValueField().nullable == valueNullable
  {
    Map(PlainField("entries", EntryStruct("keys", k, "values", v, valueNullable), false), false)
  }

  /** `spark_json_to_arrow_data_type`. */
  function FromJson(v: Json): Result<DataType>
    decreases v, 1
  {
    if v.JString? then NamedType(v.s)
    else
      match v.Get("type")
      case Some(JString(name)) =>
        if name == "array" then
          match v.Get("elementType")
          case None => Err(External)
          case Some(e) =>
            var element :- FromJson(e);
            Ok(ListOf(element, BoolOr(v.Get("containsNull"), true)))
        else if name == "struct" then
          match v.Get("fields")
          case Some(JArray(items)) =>
            var fields :- FieldsFromJson(items);
            Ok(Struct(fields))
          case _ => Err(External)
        else if name == "map" then
          match (v.Get("keyType"), v.Get("valueType"))
          case (Some(k), Some(e)) =>
            var key :- FromJson(k);
            var value :- FromJson(e);
            Ok(MapWith(key, value, BoolOr(v.Get("valueContainsNull"), true)))
          case _ => Err(External)
        else Err(External)
      case _ => Err(External)
  }

  function CommentFromJson(v: Json): Option<string> {
    match v.Get("metadata")
    case Some(m) =>
      (match m.Get(COMMENT_KEY)
       case Some(JString(c)) => Some(c)
       case _ => None)
    case None => None
  }

  /** The metadata a parsed field carries: its comment, if any. */
  function CommentMetadata(comment: Option<string>): map<string, string> {
    if comment.Some? then map[COMMENT_KEY := comment.value] else map[]
  }

  function FieldsFromJson(items: seq<Json>): Result<seq<Field>>
    decreases items, 0
  {
    if items == [] then Ok([])
    else
      match (items[0].Get("name"), items[0].Get("type"))
      case (Some(JString(name)), Some(v)) =>
        var t :- FromJson(v);
        var rest :- FieldsFromJson(items[1..]);
        var metadata := CommentMetadata(CommentFromJson(items[0]));
        Ok([Field(name, t, BoolOr(items[0].Get("nullable"), true), metadata)] + rest)
      case _ => Err(External)
  }

  /** `spark_struct_json_from_fields` and `spark_struct_json_value_to_fields`, at the value level. */
  function SchemaToJson(fields: seq<Field>): Result<Json> {
    var items :- FieldsToJson(fields);
    Ok(StructJson(items))
  }

  function SchemaFromJson(v: Json): Result<seq<Field>> {
    match (v.Get("type"), v.Get("fields"))
    case (Some(JString(name)), Some(JArray(items))) =>
      if name == "struct" then FieldsFromJson(items) else Err(External)
    case _ => Err(External)
  }
}
