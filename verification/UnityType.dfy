/** The type JSON of Unity Catalog columns: printer, parser, and the column record around them. */
module UnityType {
  import opened Arrow
  import opened Text
  import opened Json
  import opened HiveSyntax

  function UpperChar(c: char): char {
    if 'a' <= c <= 'z' then (c as int - 32) as char else c
  }

  function ToUpper(s: string): (r: string)
    ensures |r| == |s|
  {
    seq(|s|, i requires 0 <= i < |s| => UpperChar(s[i]))
  }

  // Printing

  datatype TypeName =
    | TnNull | TnBoolean | TnByte | TnShort | TnInt | TnLong | TnFloat | TnDouble
    | TnTimestamp | TnTimestampNtz | TnDate | TnBinary | TnString
    | TnInterval | TnDecimal | TnArray | TnMap | TnStruct

  predicate IsSimple(n: TypeName) {
    !n.TnInterval? && !n.TnDecimal? && !n.TnArray? && !n.TnMap? && !n.TnStruct?
  }

  /** A column type name in lower case. */
  function NameText(n: TypeName): string {
    match n
    case TnNull => "null"
    case TnBoolean => "boolean"
    case TnByte => "byte"
    case TnShort => "short"
    case TnInt => "int"
    case TnLong => "long"
    case TnFloat => "float"
    case TnDouble => "double"
    case TnTimestamp => "timestamp"
    case TnTimestampNtz => "timestamp_ntz"
    case TnDate => "date"
    case TnBinary => "binary"
    case TnString => "string"
    case TnInterval => "interval"
    case TnDecimal => "decimal"
    case TnArray => "array"
    case TnMap => "map"
    case TnStruct => "struct"
  }

  function LeafName(t: DataType): (r: Option<TypeName>)
    ensures r.Some? ==> IsSimple(r.value)
  {
    match t
    case Null => Some(TnNull)
    case Boolean => Some(TnBoolean)
    case Int8 => Some(TnByte)
    case Int16 | UInt8 => Some(TnShort)
    case Int32 | UInt16 => Some(TnInt)
    case Int64 | UInt32 => Some(TnLong)
    case Float32 => Some(TnFloat)
    case Float64 => Some(TnDouble)
    case Timestamp(Microsecond, timezone) => Some(if timezone.Some? then TnTimestamp else TnTimestampNtz)
    case Date32 => Some(TnDate)
    case Binary | FixedSizeBinary(_) | LargeBinary | BinaryView => Some(TnBinary)
    case Utf8 | LargeUtf8 | Utf8View => Some(TnString)
    case _ => None
  }

  function MetadataJson(metadata: map<string, string>): Json {
    JObject(map k | k in metadata :: JString(metadata[k]))
  }

  function Wrap(inner: map<string, Json>): Json {
    JObject(map["type" := JObject(inner)])
  }

  function WrapWithMetadata(inner: map<string, Json>, metadata: map<string, string>): Json {
    JObject(map["type" := JObject(inner), "metadata" := MetadataJson(metadata)])
  }

  function StartUnit(yearMonth: bool): string {
    if yearMonth then "year" else "day"
  }

  function EndUnit(yearMonth: bool): string {
    if yearMonth then "month" else "time"
  }

  function IntervalJson(yearMonth: bool): Json {
    Wrap(map["type" := JString("interval"), "startUnit" := JString(StartUnit(yearMonth)),
             "endUnit" := JString(EndUnit(yearMonth))])
  }

  function DecimalJson(precision: u8, scale: i8): Json {
    Wrap(map["type" := JString("decimal"), "precision" := JNumber(precision), "scale" := JNumber(scale)])
  }

  function ArrayJson(element: Json, containsNull: bool, metadata: map<string, string>): Json {
    WrapWithMetadata(map["type" := JString("array"), "elementType" := element, "containsNull" := JBool(containsNull)],
                     metadata)
  }

  function MapJson(key: Json, value: Json, valueContainsNull: bool, metadata: map<string, string>): Json {
    WrapWithMetadata(map["type" := JString("map"), "keyType" := key, "valueType" := value,
                         "valueContainsNull" := JBool(valueContainsNull)], metadata)
  }

  function StructJson(fields: seq<Json>): Json {
    Wrap(map["type" := JString("struct"), "fields" := JArray(fields)])
  }

  function FieldJson(name: string, dataType: Json, nullable: bool, metadata: map<string, string>): Json {
    JObject(map["name" := JString(name), "type" := dataType, "nullable" := JBool(nullable),
                "metadata" := MetadataJson(metadata)])
  }

  predicate FitsDecimal128(precision: u8, scale: i8) {
    precision <= 38 && scale <= 38
  }

  /** The list types Unity Catalog takes; fixed-size lists are not among them. */
  predicate IsUnityList(t: DataType) {
    t.List? || t.ListView? || t.LargeList? || t.LargeListView?
  }

  /** The type JSON of `data_type_to_unity_type`. */
  function ToJson(t: DataType): Result<Json>
    decreases t, 1
  {
    if t.IsDecimal() then
      if t.Decimal256? && !FitsDecimal128(t.precision, t.scale) then Err(InvalidArgument)
      else Ok(DecimalJson(t.precision, t.scale))
    else if IsUnityList(t) then
      var element :- ToJson(t.item.dataType);
      Ok(ArrayJson(element, t.item.nullable, t.item.metadata))
    else if t == Duration(Microsecond) then Ok(IntervalJson(false))
    else if t.Interval? then
      if t.interval == MonthDayNano then Err(InvalidArgument) else Ok(IntervalJson(t.interval == YearMonth))
    else if t.IsKeyValueMap() then
      var k :- ToJson(t.entries.dataType.fields[0].dataType);
      var v :- ToJson(t.entries.dataType.fields[1].dataType);
      Ok(MapJson(k, v, t.entries.dataType.fields[1].nullable, t.entries.metadata))
    else if t.Map? then Err(InvalidArgument)
    else if t.Struct? then
      var items :- FieldsToJson(t.fields);
      Ok(StructJson(items))
    else
      match LeafName(t)
      case Some(n) => Ok(JString(NameText(n)))
      case None => Err(NotSupported)
  }

  function FieldsToJson(fields: seq<Field>): (r: Result<seq<Json>>)
    ensures r.Ok? ==> |r.value| == |fields|
    decreases fields, 0
  {
    if fields == [] then Ok([])
    else
      var first :- ToJson(fields[0].dataType);
      var rest :- FieldsToJson(fields[1..]);
      Ok([FieldJson(fields[0].name, first, fields[0].nullable, fields[0].metadata)] + rest)
  }

  // Parsing

  /** `parse_simple_type_from_string`. */
  function SimpleType(text: string): Result<DataType> {
    UpperKeyword(ToUpper(Trim(text)))
  }

  function UpperKeyword(s: string): Result<DataType> {
    if s == "BOOLEAN" || s == "BOOL" then Ok(Boolean)
    else if s == "BYTE" || s == "TINYINT" || s == "INT8" then Ok(Int8)
    else if s == "SHORT" || s == "SMALLINT" || s == "INT16" then Ok(Int16)
    else if s == "INT" || s == "INTEGER" || s == "INT32" then Ok(Int32)
    else if s == "LONG" || s == "BIGINT" || s == "INT64" then Ok(Int64)
    else if s == "FLOAT" || s == "REAL" || s == "FLOAT32" then Ok(Float32)
    else if s == "DOUBLE" || s == "FLOAT64" then Ok(Float64)
    else if s == "DATE" || s == "DATE32" then Ok(Date32)
    else if s == "TIMESTAMP" || s == "TIMESTAMP_LTZ" then Ok(UTC_MICROS)
    else if s == "TIMESTAMP_NTZ" then Ok(LOCAL_MICROS)
    else if s == "STRING" || s == "CHAR" || s == "CHARACTER" || s == "VARCHAR" then Ok(Utf8)
    else if s == "TEXT" then Ok(LargeUtf8)
    else if s == "BINARY" || s == "BYTEA" then Ok(Binary)
    else if s == "NULL" || s == "VOID" then Ok(Null)
    else Err(InvalidArgument)
  }

  /** `get_field_metadata`: the string members of the metadata object. */
  function MetadataOf(v: Json): map<string, string> {
    match v.Get("metadata")
    case Some(JObject(m)) => map k | k in m && m[k].JString? :: m[k].s
    case _ => map[]
  }

  function Or(a: Option<Json>, b: Option<Json>): Option<Json> {
    if a.Some? then a else b
  }

  /** The object that describes the type, its kind, and the metadata of both levels, inner over outer. */
  datatype Described = Described(info: Json, kind: string, metadata: map<string, string>)

  function Describe(v: Json): (r: Result<Described>)
    requires v.JObject?
    ensures r.Ok? ==> r.value.info.JObject?
    ensures r.Ok? ==> r.value.info == v || Some(r.value.info) == v.Get("type")
  {
    match v.Get("type")
    case Some(JString(s)) => Ok(Described(v, ToLower(Trim(s)), MetadataOf(v)))
    case Some(JObject(m)) =>
      var inner := JObject(m);
      (match Or(inner.Get("type"), inner.Get("name"))
       case Some(JString(s)) => Ok(Described(inner, ToLower(Trim(s)), MetadataOf(v) + MetadataOf(inner)))
       case _ => Err(InvalidArgument))
    case _ => Err(InvalidArgument)
  }

  function UnitText(v: Option<Json>): Option<string> {
    match v
    case Some(JString(s)) => Some(ToUpper(Trim(s)))
    case _ => None
  }

  function ParseInterval(info: Json): Result<DataType> {
    match (UnitText(Or(info.Get("startUnit"), info.Get("start_unit"))), UnitText(Or(info.Get("endUnit"), info.Get("end_unit"))))
    case (Some(a), Some(b)) => IntervalOf(a, b)
    case _ => Err(NotSupported)
  }

  function IntervalOf(start: string, end: string): Result<DataType> {
    if start == "YEAR" && end == "MONTH" then Ok(Interval(YearMonth))
    else if start == "DAY" && end == "TIME" then Ok(Interval(DayTime))
    else Err(NotSupported)
  }

  const I64_MAX: int := 0x7FFF_FFFF_FFFF_FFFF

  function AsI64(v: Option<Json>): Option<int> {
    match v
    case Some(JNumber(n)) => if -I64_MAX - 1 <= n <= I64_MAX then Some(n) else None
    case _ => None
  }

  /** `as u8` and `as i8`: truncation to eight bits. */
  function CastU8(n: int): u8 {
    n % 256
  }

  function CastI8(n: int): i8 {
    if n % 256 < 128 then n % 256 else n % 256 - 256
  }

  function ParseDecimal(info: Json): Result<DataType> {
    match (AsI64(info.Get("precision")), AsI64(info.Get("scale")))
    case (Some(p), Some(s)) =>
      if FitsDecimal128(CastU8(p), CastI8(s)) then Ok(Decimal128(CastU8(p), CastI8(s))) else Err(InvalidArgument)
    case _ => Err(NotSupported)
  }

  function ListOf(element: DataType, nullable: bool, metadata: map<string, string>): DataType {
    List(Field("item", element, nullable, metadata))
  }

  function MapWith(k: DataType, v: DataType, valueNullable: bool, metadata: map<string, string>): (t: DataType)
    ensures t.IsKeyValueMap() && t.KeyField().dataType == k && t.ValueField().dataType == v
  {
    Map(Field("entries", EntryStruct("key", k, "value", v, valueNullable), false, metadata), false)
  }

  /** `parse_unity_type_json` after decoding, and the same dispatch for every nested type. */
  function FromJson(v: Json): Result<DataType>
    decreases v, 2
  {
    match v
    case JString(s) => SimpleType(s)
    case JObject(_) =>
      var d :- Describe(v);
      ParseComplex(v, d)
    case _ => Err(InvalidArgument)
  }

  /** `parse_complex_type_from_json_object`. */
  function ParseComplex(v: Json, d: Described): Result<DataType>
    requires v.JObject? && d.info.JObject? && (d.info == v || Some(d.info) == v.Get("type"))
    decreases v, 1
  {
    var info := d.info;
    if d.kind == "interval" then ParseInterval(info)
    else if d.kind == "decimal" then ParseDecimal(info)
    else if d.kind == "array" then
      match Or(Or(info.Get("elementType"), info.Get("element_type")), Or(info.Get("itemType"), info.Get("item_type")))
      case None => Err(InvalidArgument)
      case Some(e) =>
        var element :- FromJson(e);
        var nullable := BoolOr(Or(Or(info.Get("containsNull"), info.Get("contains_null")),
                                  NullableAlternatives(info)), true);
        Ok(ListOf(element, nullable, d.metadata))
    else if d.kind == "map" then
      match (Or(info.Get("keyType"), info.Get("key_type")), Or(info.Get("valueType"), info.Get("value_type")))
      case (Some(k), Some(e)) =>
        var key :- FromJson(k);
        var value :- FromJson(e);
        var nullable := BoolOr(Or(Or(info.Get("valueContainsNull"), info.Get("value_contains_null")),
                                  NullableAlternatives(info)), true);
        Ok(MapWith(key, value, nullable, d.metadata))
      case _ => Err(InvalidArgument)
    else if d.kind == "struct" then
      match info.Get("fields")
      case Some(JArray(items)) =>
        var fields :- FieldsFromJson(items);
        Ok(Struct(fields))
      case _ => Err(InvalidArgument)
    else Err(InvalidArgument)
  }

  function NullableAlternatives(info: Json): Option<Json> {
    Or(Or(info.Get("elementNullable"), info.Get("element_nullable")),
       Or(info.Get("itemNullable"), info.Get("item_nullable")))
  }

  function FieldsFromJson(items: seq<Json>): Result<seq<Field>>
    decreases items, 0
  {
    if items == [] then Ok([])
    else
      match (items[0].Get("name"), items[0].Get("type"))
      case (Some(JString(name)), Some(v)) =>
        var t :- FromJson(v);
        var rest :- FieldsFromJson(items[1..]);
        Ok([Field(name, t, BoolOr(items[0].Get("nullable"), true), MetadataOf(items[0]))] + rest)
      case _ => Err(InvalidArgument)
  }
}
