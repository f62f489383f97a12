/** A Unity Catalog column record, written from a type and read back. */
module UnityColumn {
  import opened Arrow
  import opened Text
  import opened Json
  import opened HiveSyntax
  import opened UnityType
  import opened UnityRoundTrip

  /** The fields of a column record that describe its type. */
  datatype ColumnInfo = ColumnInfo(typeName: TypeName, typeJson: Option<string>, precision: Option<int>,
                                   scale: Option<int>, intervalType: Option<string>)

  function NameOf(t: DataType): TypeName {
    if t.IsDecimal() then TnDecimal
    else if IsUnityList(t) then TnArray
    else
      match t
      case Duration(_) | Interval(_) => TnInterval
      case Map(_, _) => TnMap
      case Struct(_) => TnStruct
      case _ => if LeafName(t).Some? then LeafName(t).value else TnNull
  }

  function IntervalTypeOf(t: DataType): Option<string> {
    match t
    case Interval(YearMonth) => Some("YearMonth")
    case Interval(DayTime) | Duration(Microsecond) => Some("DayTime")
    case Interval(MonthDayNano) => Some("MonthDayNano")
    case _ => None
  }

  /** The record `create_table` sends for a column of type `t`. */
  function WriteColumn(codec: TextCodec, t: DataType): Result<ColumnInfo> {
    var json :- ToJson(t);
    Ok(ColumnInfo(NameOf(t), Some(codec.encode(json)),
                  if t.IsDecimal() then Some(t.precision) else None,
                  if t.IsDecimal() then Some(t.scale) else None,
                  IntervalTypeOf(t)))
  }

  function IntervalFromText(text: string): Result<DataType> {
    IntervalKeyword(ToUpper(Trim(text)))
  }

  function IntervalKeyword(s: string): Result<DataType> {
    if s == "INTERVAL_YEAR_MONTH" || s == "INTERVAL_YEARMONTH" || s == "INTERVALYEARMONTH" || s == "YEAR_MONTH"
       || s == "YEARMONTH" then Ok(Interval(YearMonth))
    else if s == "INTERVAL_DAY_TIME" || s == "INTERVAL_DAYTIME" || s == "INTERVALDAYTIME" || s == "DAY_TIME"
            || s == "DAYTIME" then Ok(Interval(DayTime))
    else if s == "INTERVAL_MONTH_DAY_NANO" || s == "INTERVAL_MONTHDAYNANO" || s == "INTERVALMONTHDAYNANO"
            || s == "MONTH_DAY_NANO" || s == "MONTHDAYNANO" then Ok(Interval(MonthDayNano))
    else Err(NotSupported)
  }

  /** `parse_unity_type_json`. */
  function ParseText(codec: TextCodec, text: Option<string>, missing: CatalogError): Result<DataType> {
    if text.None? then Err(missing)
    else
      match codec.decode(text.value)
      case None => Err(InvalidArgument)
      case Some(v) => FromJson(v)
  }

  /** `unity_type_to_data_type`, for a record that names its type. */
  function ReadColumn(codec: TextCodec, info: ColumnInfo): Result<DataType> {
    match info.typeName
    case TnDecimal =>
      if info.precision.Some? && info.scale.Some? then
        Ok(Decimal128(CastU8(info.precision.value), CastI8(info.scale.value)))
      else ParseText(codec, info.typeJson, NotSupported)
    case TnInterval =>
      if info.intervalType.Some? then IntervalFromText(info.intervalType.value)
      else ParseText(codec, info.typeJson, NotSupported)
    case TnArray | TnStruct | TnMap => ParseText(codec, info.typeJson, InvalidArgument)
    case _ => Ok(NameDenotes(info.typeName))
  }

  lemma IntervalTexts()
    ensures IntervalFromText("YearMonth") == Ok(Interval(YearMonth))
    ensures IntervalFromText("DayTime") == Ok(Interval(DayTime))
  {
    assert Trim("YearMonth") == "YearMonth" && ToUpper("YearMonth") == "YEARMONTH";
    assert Trim("DayTime") == "DayTime" && ToUpper("DayTime") == "DAYTIME";
  }

  /** What a column record of type `t` should read back as. */
  function ColumnOutcome(t: DataType): Result<DataType> {
    if t.IsDecimal() || DecimalsFit(t) then Ok(Normal(t)) else Err(InvalidArgument)
  }

  lemma LeafNameDenotes(t: DataType)
    requires TreeOf(t).Ok? && !t.IsDecimal() && !IsUnityList(t) && !t.Map? && !t.Struct?
    requires !t.Duration? && !t.Interval?
    ensures LeafName(t).Some? && NameDenotes(LeafName(t).value) == LeafNormal(t)
  {
  }

  lemma LeafColumn(codec: TextCodec, t: DataType, info: ColumnInfo)
    requires TreeOf(t).Ok? && !t.IsDecimal() && !IsUnityList(t) && !t.Map? && !t.Struct?
    requires !t.Duration? && !t.Interval?
    requires info.typeName == NameOf(t)
    ensures ReadColumn(codec, info) == ColumnOutcome(t)
  {
    LeafNameDenotes(t);
  }

  lemma NestedColumn(codec: TextCodec, json: Json, info: ColumnInfo)
    requires info.typeName.TnArray? || info.typeName.TnMap? || info.typeName.TnStruct?
    requires codec.Faithful(json) && info.typeJson == Some(codec.encode(json))
    ensures ReadColumn(codec, info) == FromJson(json)
  {
  }

  lemma IntervalKinds(t: DataType)
    requires (t.Duration? || t.Interval?) && TreeOf(t).Ok?
    ensures t == Duration(Microsecond) || t == Interval(YearMonth) || t == Interval(DayTime)
  {
  }

  lemma IntervalColumn(codec: TextCodec, t: DataType, info: ColumnInfo)
    requires t == Duration(Microsecond) || t == Interval(YearMonth) || t == Interval(DayTime)
    requires info.typeName == NameOf(t) && info.intervalType == IntervalTypeOf(t)
    ensures ReadColumn(codec, info) == ColumnOutcome(t)
  {
    IntervalTextOf(t);
  }

  lemma IntervalTextOf(t: DataType)
    requires t == Duration(Microsecond) || t == Interval(YearMonth) || t == Interval(DayTime)
    ensures IntervalTypeOf(t).Some? && IntervalFromText(IntervalTypeOf(t).value) == Ok(LeafNormal(t))
  {
    IntervalTexts();
  }

  lemma DecimalColumn(codec: TextCodec, t: DataType, info: ColumnInfo)
    requires t.IsDecimal()
    requires info.typeName == NameOf(t) && info.precision == Some(t.precision) && info.scale == Some(t.scale)
    ensures ReadColumn(codec, info) == ColumnOutcome(t)
  {
    assert CastU8(t.precision) == t.precision && CastI8(t.scale) == t.scale;
  }

  /**
  A column reads back as the normal form of its type, exactly when its nested decimals fit
  128 bits; a decimal column itself is exempt, because its precision and scale are stored
  beside the JSON and read without a check.
  */
  lemma ColumnRoundTrip(codec: TextCodec, t: DataType)
    requires ToJson(t).Ok? && codec.Faithful(ToJson(t).value)
    ensures ReadColumn(codec, WriteColumn(codec, t).value) ==
            if t.IsDecimal() || DecimalsFit(t) then Ok(Normal(t)) else Err(InvalidArgument)
  {
    var info := WriteColumn(codec, t).value;
    ToJsonIsEncode(t);
    if t.IsDecimal() {
      DecimalColumn(codec, t, info);
    } else if IsUnityList(t) || t.Map? || t.Struct? {
      NestedColumn(codec, ToJson(t).value, info);
      FromJsonInvertsToJson(t);
    } else if t.Duration? || t.Interval? {
      IntervalKinds(t);
      IntervalColumn(codec, t, info);
    } else {
      LeafColumn(codec, t, info);
    }
  }
}
