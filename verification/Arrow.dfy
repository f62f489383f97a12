/** Arrow data types as the catalog codecs see them, and the catalog's result type. */
module Arrow {

  /** The kinds of catalog error; message texts are not modelled. */
  datatype CatalogError =
    | InvalidArgument
    | NotSupported
    | NotFound
    | AlreadyExists
    | External
    | Internal

  datatype Result<+T> = Ok(value: T) | Err(error: CatalogError) {
    predicate IsFailure() {
      Err?
    }

    function PropagateFailure<U>(): Result<U>
      requires Err?
    {
      Err(error)
    }

    function Extract(): T
      requires Ok?
    {
      value
    }
  }

  datatype Option<+T> = None | Some(value: T)

  type u8 = x: int | 0 <= x < 256
  type i8 = x: int | -128 <= x < 128

  datatype TimeUnit = Second | Millisecond | Microsecond | Nanosecond

  datatype IntervalUnit = YearMonth | DayTime | MonthDayNano

  datatype Field = Field(name: string, dataType: DataType, nullable: bool, metadata: map<string, string>)

  datatype DataType =
    | Null
    | Boolean
    | Int8
    | Int16
    | Int32
    | Int64
    | UInt8
    | UInt16
    | UInt32
    | UInt64
    | Float16
    | Float32
    | Float64
    | Decimal32(precision: u8, scale: i8)
    | Decimal64(precision: u8, scale: i8)
    | Decimal128(precision: u8, scale: i8)
    | Decimal256(precision: u8, scale: i8)
    | Utf8
    | LargeUtf8
    | Utf8View
    | Binary
    | FixedSizeBinary(width: int)
    | LargeBinary
    | BinaryView
    | Date32
    | Date64
    | Timestamp(unit: TimeUnit, timezone: Option<string>)
    | Time32(unit: TimeUnit)
    | Time64(unit: TimeUnit)
    | Duration(unit: TimeUnit)
    | Interval(interval: IntervalUnit)
    | List(item: Field)
    | FixedSizeList(item: Field, size: int)
    | LargeList(item: Field)
    | ListView(item: Field)
    | LargeListView(item: Field)
    | Struct(fields: seq<Field>)
    | Map(entries: Field, sorted: bool)
    | Dictionary(key: DataType, values: DataType)
    | Union(variants: seq<Field>)
    | RunEndEncoded(runEnds: Field, runValues: Field)
  {
    predicate IsDecimal() {
      Decimal32? || Decimal64? || Decimal128? || Decimal256?
    }

    predicate IsInteger() {
      Int8? || Int16? || Int32? || Int64? || UInt8? || UInt16? || UInt32? || UInt64?
    }

    predicate IsList() {
      List? || FixedSizeList? || LargeList? || ListView? || LargeListView?
    }

    /** A map whose entries are a struct of exactly a key and a value field. */
    predicate IsKeyValueMap() {
      Map? && entries.dataType.Struct? && |entries.dataType.fields| == 2
    }

    function KeyField(): Field
      requires IsKeyValueMap()
    {
      entries.dataType.fields[0]
    }

    function ValueField(): Field
      requires IsKeyValueMap()
    {
      entries.dataType.fields[1]
    }
  }

  /** A field without metadata. */
  function PlainField(name: string, dataType: DataType, nullable: bool): Field {
    Field(name, dataType, nullable, map[])
  }

  /** The two-field entry struct of a map, as every reader of the catalogs builds it. */
  function EntryStruct(keyName: string, key: DataType, valueName: string, value: DataType, valueNullable: bool)
    : DataType
  {
    Struct([PlainField(keyName, key, false), PlainField(valueName, value, valueNullable)])
  }
}
