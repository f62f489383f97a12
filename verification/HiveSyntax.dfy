/**
Hive type strings, in the two dialects of the repository: the Hive Metastore catalog
and the AWS Glue catalog. Their printers and parsers share the keywords and the overall
shape; they differ in the decimals they accept, in how they split at commas, and in a
few names and defaults.
*/
module HiveSyntax {
  import opened Arrow
  import opened Text
  import opened TopLevel

  datatype Dialect = Hive | Glue

  // Printing

  datatype Keyword =
    | KwVoid
    | KwBoolean
    | KwTinyint
    | KwSmallint
    | KwInt
    | KwBigint
    | KwFloat
    | KwDouble
    | KwString
    | KwBinary
    | KwDate
    | KwTimestamp

  /** The keyword of a type that is neither nested nor a decimal. */
  function LeafKeyword(t: DataType): Option<Keyword> {
    match t
    case Null => Some(KwVoid)
    case Boolean => Some(KwBoolean)
    case Int8 | UInt8 => Some(KwTinyint)
    case Int16 | UInt16 => Some(KwSmallint)
    case Int32 | UInt32 => Some(KwInt)
    case Int64 | UInt64 => Some(KwBigint)
    case Float16 | Float32 => Some(KwFloat)
    case Float64 => Some(KwDouble)
    case Utf8 | LargeUtf8 | Utf8View => Some(KwString)
    case Binary | FixedSizeBinary(_) | LargeBinary | BinaryView => Some(KwBinary)
    case Date32 | Date64 => Some(KwDate)
    case Timestamp(_, _) => Some(KwTimestamp)
    case Time32(_) | Time64(_) | Duration(_) | Interval(_) => Some(KwString)
    case _ => None
  }

  function KeywordText(k: Keyword): string {
    match k
    case KwVoid => "void"
    case KwBoolean => "boolean"
    case KwTinyint => "tinyint"
    case KwSmallint => "smallint"
    case KwInt => "int"
    case KwBigint => "bigint"
    case KwFloat => "float"
    case KwDouble => "double"
    case KwString => "string"
    case KwBinary => "binary"
    case KwDate => "date"
    case KwTimestamp => "timestamp"
  }

  function DecimalText(precision: u8, scale: i8): string {
    "decimal(" + (NatToString(precision) + "," + IntToString(scale)) + ")"
  }

  /** The Metastore limits precision and scale; Glue has no 32- and 64-bit decimals. */
  function PrintDecimal(dialect: Dialect, t: DataType): Result<string>
    requires t.IsDecimal()
  {
    match dialect
    case Hive =>
      if t.precision > 38 || t.scale < 0 || t.scale > t.precision then Err(InvalidArgument)
      else Ok(DecimalText(t.precision, t.scale))
    case Glue =>
      if t.Decimal32? || t.Decimal64? then Err(NotSupported) else Ok(DecimalText(t.precision, t.scale))
  }

  /** `arrow_to_hive_type` and `arrow_to_glue_type`. */
  function Print(dialect: Dialect, t: DataType): Result<string>
    decreases t, 1
  {
    if t.IsDecimal() then PrintDecimal(dialect, t)
    else if t.IsList() then
      var element :- Print(dialect, t.item.dataType);
      Ok("array<" + element + ">")
    else if t.Struct? then
      var parts :- PrintFields(dialect, t.fields);
      Ok("struct<" + Join(parts, ",") + ">")
    else if t.IsKeyValueMap() then
      var k :- Print(dialect, t.entries.dataType.fields[0].dataType);
      var v :- Print(dialect, t.entries.dataType.fields[1].dataType);
      Ok("map<" + (k + "," + v) + ">")
    else if t.Map? then Err(InvalidArgument)
    else if t.Dictionary? then Print(dialect, t.values)
    else
      match LeafKeyword(t)
      case Some(keyword) => Ok(KeywordText(keyword))
      case None => Err(NotSupported)
  }

  function PrintFields(dialect: Dialect, fields: seq<Field>): (r: Result<seq<string>>)
    ensures r.Ok? ==> |r.value| == |fields|
    decreases fields, 0
  {
    if fields == [] then Ok([])
    else
      var first :- Print(dialect, fields[0].dataType);
      var rest :- PrintFields(dialect, fields[1..]);
      Ok([fields[0].name + ":" + first] + rest)
  }

  // Parsing

  const UTC_MICROS := Timestamp(Microsecond, Some("UTC"))
  const LOCAL_MICROS := Timestamp(Microsecond, None)

  function ParseKeyword(dialect: Dialect, s: string): Result<DataType> {
    if s == "void" || s == "null" then Ok(Null)
    else if s == "boolean" || s == "bool" then Ok(Boolean)
    else if s == "tinyint" || s == "byte" then Ok(Int8)
    else if s == "smallint" || s == "short" then Ok(Int16)
    else if s == "int" || s == "integer" then Ok(Int32)
    else if s == "bigint" || s == "long" then Ok(Int64)
    else if s == "float" || s == "real" then Ok(Float32)
    else if s == "double" then Ok(Float64)
    else if s == "string" || s == "varchar" || s == "char" then Ok(Utf8)
    else if s == "binary" then Ok(Binary)
    else if s == "date" then Ok(Date32)
    else if s == "timestamp" then Ok(if dialect == Hive then UTC_MICROS else LOCAL_MICROS)
    else if dialect == Hive && s == "timestamp_ntz" then Ok(LOCAL_MICROS)
    else Err(InvalidArgument)
  }

  function ParseDecimal(dialect: Dialect, s: string): Result<DataType> {
    if s == "decimal" then Ok(if dialect == Hive then Decimal128(10, 0) else Decimal128(38, 18))
    else
      match Strip(s, "decimal(", ')')
      case None => Err(InvalidArgument)
      case Some(inner) =>
        var parts := TrimAll(SplitOn(inner, ','));
        if |parts| == 1 then
          match ParseU8(parts[0])
          case None => Err(InvalidArgument)
          case Some(p) => Ok(Decimal128(p, 0))
        else if |parts| == 2 then
          match (ParseU8(parts[0]), ParseI8(parts[1]))
          case (Some(p), Some(s)) => Ok(Decimal128(p, s))
          case _ => Err(InvalidArgument)
        else Err(InvalidArgument)
  }

  /**
  Glue's pieces of a struct body, trimmed and without a blank last piece. Only angle
  brackets count, and their depth may go below zero.
  */
  function AnglePieces(rest: string, current: string, depth: int): (r: seq<string>)
    ensures forall i :: 0 <= i < |r| ==> |r[i]| <= |current| + |rest|
    decreases |rest|
  {
    if rest == [] then if Trim(current) == [] then [] else [Trim(current)]
    else if rest[0] == ',' && depth == 0 then [Trim(current)] + AnglePieces(rest[1..], [], 0)
    else AnglePieces(rest[1..], current + [rest[0]], AngleStep(depth, rest[0]))
  }

  function AngleStep(depth: int, c: char): int {
    if c == '<' then depth + 1 else if c == '>' then depth - 1 else depth
  }

  /** Glue's separator of a map's key and value: the first comma at angle depth zero. */
  function AngleSplit(rest: string, current: string, depth: int): (r: Option<(string, string)>)
    ensures r.Some? ==> |r.value.0| + |r.value.1| < |current| + |rest|
    decreases |rest|
  {
    if rest == [] then None
    else if rest[0] == ',' && depth == 0 then Some((current, rest[1..]))
    else AngleSplit(rest[1..], current + [rest[0]], AngleStep(depth, rest[0]))
  }

  /** The key and value texts of a map body. */
  function KeyValueTexts(dialect: Dialect, inner: string): (r: Result<(string, string)>)
    ensures r.Ok? ==> |r.value.0| <= |inner| && |r.value.1| <= |inner|
  {
    match dialect
    case Hive =>
      var parts :- Pieces(inner);
      if |parts| == 2 then Ok((parts[0], parts[1])) else Err(InvalidArgument)
    case Glue =>
      match AngleSplit(inner, [], 0)
      case None => Err(InvalidArgument)
      case Some(kv) => Ok((Trim(kv.0), Trim(kv.1)))
  }

  /** The field texts of a struct body. */
  function FieldTexts(dialect: Dialect, inner: string): (r: Result<seq<string>>)
    ensures r.Ok? ==> forall i :: 0 <= i < |r.value| ==> |r.value[i]| <= |inner|
  {
    match dialect
    case Hive => Pieces(inner)
    case Glue => Ok(if inner == [] then [] else AnglePieces(inner, [], 0))
  }

  /** `hive_type_to_arrow` and `glue_type_to_arrow`. */
  function Parse(dialect: Dialect, text: string): Result<DataType>
    decreases |text|, 2
  {
    ParseLowered(dialect, ToLower(Trim(text)))
  }

  function ParseLowered(dialect: Dialect, s: string): Result<DataType>
    decreases |s|, 1
  {
    if StartsWith(s, "decimal") then ParseDecimal(dialect, s)
    else if StartsWith(s, "array<") then
      match Strip(s, "array<", '>')
      case None => Err(InvalidArgument)
      case Some(inner) =>
        var element :- Parse(dialect, inner);
        Ok(List(PlainField("item", element, true)))
    else if StartsWith(s, "map<") then
      match Strip(s, "map<", '>')
      case None => Err(InvalidArgument)
      case Some(inner) =>
        var kv :- KeyValueTexts(dialect, inner);
        var k :- Parse(dialect, kv.0);
        var v :- Parse(dialect, kv.1);
        Ok(MapOf(dialect, k, v))
    else if StartsWith(s, "struct<") then
      match Strip(s, "struct<", '>')
      case None => Err(InvalidArgument)
      case Some(inner) =>
        var parts :- FieldTexts(dialect, inner);
        var fields :- ParseFields(dialect, parts, |inner|);
        Ok(Struct(fields))
    else if StartsWith(s, "char(") || StartsWith(s, "varchar(") then Ok(Utf8)
    else ParseKeyword(dialect, s)
  }

  function KeyName(dialect: Dialect): string {
    if dialect == Hive then "keys" else "key"
  }

  function ValueName(dialect: Dialect): string {
    if dialect == Hive then "values" else "value"
  }

  function MapOf(dialect: Dialect, k: DataType, v: DataType): (t: DataType)
    ensures t.IsKeyValueMap() && t.KeyField().dataType == k && t.ValueField().dataType == v
  {
    Map(PlainField("entries", EntryStruct(KeyName(dialect), k, ValueName(dialect), v, true), false), false)
  }

  function ParseField(dialect: Dialect, part: string): Result<Field>
    decreases |part|, 0
  {
    match SplitOnce(part, ':')
    case None => Err(InvalidArgument)
    case Some(p) =>
      assert |p.0 + [':'] + p.1| == |part|;
      var t :- Parse(dialect, p.1);
      Ok(PlainField(if dialect == Hive then p.0 else Trim(p.0), t, true))
  }

  function ParseFields(dialect: Dialect, parts: seq<string>, limit: nat): Result<seq<Field>>
    requires forall i :: 0 <= i < |parts| ==> |parts[i]| <= limit
    decreases limit, 3, |parts|
  {
    if parts == [] then Ok([])
    else
      var first :- ParseField(dialect, parts[0]);
      var rest :- ParseFields(dialect, parts[1..], limit);
      Ok([first] + rest)
  }
}
