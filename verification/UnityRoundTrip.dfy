/** The Unity Catalog type JSON round trips exactly when every decimal fits 128 bits. */
module UnityRoundTrip {
  import opened Arrow
  import opened Text
  import opened Json
  import opened HiveSyntax
  import opened UnityType

  // The type that comes back

  function LeafNormal(t: DataType): DataType {
    match t
    case UInt8 => Int16
    case UInt16 => Int32
    case UInt32 => Int64
    case Timestamp(_, timezone) => if timezone.Some? then UTC_MICROS else LOCAL_MICROS
    case FixedSizeBinary(_) | LargeBinary | BinaryView => Binary
    case LargeUtf8 | Utf8View => Utf8
    case Duration(_) => Interval(DayTime)
    case _ => t
  }

  /** Unsigned integers widened, durations as intervals; nullability and all metadata kept. */
  function Normal(t: DataType): DataType
    decreases t, 1
  {
    if t.IsDecimal() then Decimal128(t.precision, t.scale)
    else if IsUnityList(t) then ListOf(Normal(t.item.dataType), t.item.nullable, t.item.metadata)
    else if t.IsKeyValueMap() then
      MapWith(Normal(t.entries.dataType.fields[0].dataType), Normal(t.entries.dataType.fields[1].dataType),
              t.entries.dataType.fields[1].nullable, t.entries.metadata)
    else if t.Struct? then Struct(NormalFields(t.fields))
    else LeafNormal(t)
  }

  function NormalFields(fields: seq<Field>): (r: seq<Field>)
    ensures |r| == |fields|
    decreases fields, 0
  {
    if fields == [] then []
    else [fields[0].(dataType := Normal(fields[0].dataType))] + NormalFields(fields[1..])
  }

  /** Every decimal, at any depth, has precision and scale at most 38. */
  predicate DecimalsFit(t: DataType)
    decreases t, 1
  {
    if t.IsDecimal() then FitsDecimal128(t.precision, t.scale)
    else if IsUnityList(t) then DecimalsFit(t.item.dataType)
    else if t.IsKeyValueMap() then
      DecimalsFit(t.entries.dataType.fields[0].dataType) && DecimalsFit(t.entries.dataType.fields[1].dataType)
    else t.Struct? ==> FieldsFit(t.fields)
  }

  predicate FieldsFit(fields: seq<Field>)
    decreases fields, 0
  {
    fields == [] || (DecimalsFit(fields[0].dataType) && FieldsFit(fields[1..]))
  }

  // The shapes of the type JSON

  datatype Tree =
    | Leaf(name: TypeName)
    | Span(yearMonth: bool)
    | Dec(precision: u8, scale: i8)
    | Arr(element: Tree, containsNull: bool, metadata: map<string, string>)
    | Dict(key: Tree, value: Tree, valueContainsNull: bool, metadata: map<string, string>)
    | Rec(branches: seq<Branch>)

  datatype Branch = Branch(name: string, tree: Tree, nullable: bool, metadata: map<string, string>)

  function Encode(x: Tree): Json
    decreases x, 1
  {
    match x
    case Leaf(n) => JString(NameText(n))
    case Span(ym) => IntervalJson(ym)
    case Dec(p, s) => DecimalJson(p, s)
    case Arr(e, n, m) => ArrayJson(Encode(e), n, m)
    case Dict(k, v, n, m) => MapJson(Encode(k), Encode(v), n, m)
    case Rec(bs) => StructJson(EncodeBranches(bs))
  }

  function EncodeBranches(bs: seq<Branch>): (r: seq<Json>)
    ensures |r| == |bs|
    decreases bs, 0
  {
    if bs == [] then []
    else [FieldJson(bs[0].name, Encode(bs[0].tree), bs[0].nullable, bs[0].metadata)] + EncodeBranches(bs[1..])
  }

  function NameDenotes(n: TypeName): DataType {
    match n
    case TnBoolean => Boolean
    case TnByte => Int8
    case TnShort => Int16
    case TnInt => Int32
    case TnLong => Int64
    case TnFloat => Float32
    case TnDouble => Float64
    case TnTimestamp => UTC_MICROS
    case TnTimestampNtz => LOCAL_MICROS
    case TnDate => Date32
    case TnBinary => Binary
    case TnString => Utf8
    case _ => Null
  }

  predicate Simple(x: Tree)
    decreases x, 1
  {
    match x
    case Leaf(n) => IsSimple(n)
    case Span(_) | Dec(_, _) => true
    case Arr(e, _, _) => Simple(e)
    case Dict(k, v, _, _) => Simple(k) && Simple(v)
    case Rec(bs) => SimpleBranches(bs)
  }

  predicate SimpleBranches(bs: seq<Branch>)
    decreases bs, 0
  {
    bs == [] || (Simple(bs[0].tree) && SimpleBranches(bs[1..]))
  }

  predicate Fits(x: Tree)
    decreases x, 1
  {
    match x
    case Leaf(_) | Span(_) => true
    case Dec(p, s) => FitsDecimal128(p, s)
    case Arr(e, _, _) => Fits(e)
    case Dict(k, v, _, _) => Fits(k) && Fits(v)
    case Rec(bs) => BranchesFit(bs)
  }

  predicate BranchesFit(bs: seq<Branch>)
    decreases bs, 0
  {
    bs == [] || (Fits(bs[0].tree) && BranchesFit(bs[1..]))
  }

  function Denote(x: Tree): DataType
    decreases x, 1
  {
    match x
    case Leaf(n) => NameDenotes(n)
    case Span(ym) => Interval(if ym then YearMonth else DayTime)
    case Dec(p, s) => Decimal128(p, s)
    case Arr(e, n, m) => ListOf(Denote(e), n, m)
    case Dict(k, v, n, m) => MapWith(Denote(k), Denote(v), n, m)
    case Rec(bs) => Struct(DenoteBranches(bs))
  }

  function DenoteBranches(bs: seq<Branch>): (r: seq<Field>)
    ensures |r| == |bs|
    decreases bs, 0
  {
    if bs == [] then []
    else [Field(bs[0].name, Denote(bs[0].tree), bs[0].nullable, bs[0].metadata)] + DenoteBranches(bs[1..])
  }

  function Outcome(x: Tree): Result<DataType> {
    if Fits(x) then Ok(Denote(x)) else Err(InvalidArgument)
  }

  // Parsing what was printed

  function UpperName(n: TypeName): string {
    match n
    case TnNull => "NULL"
    case TnBoolean => "BOOLEAN"
    case TnByte => "BYTE"
    case TnShort => "SHORT"
    case TnInt => "INT"
    case TnLong => "LONG"
    case TnFloat => "FLOAT"
    case TnDouble => "DOUBLE"
    case TnTimestamp => "TIMESTAMP"
    case TnTimestampNtz => "TIMESTAMP_NTZ"
    case TnDate => "DATE"
    case TnBinary => "BINARY"
    case _ => "STRING"
  }

  lemma UpperNameText(n: TypeName)
    requires IsSimple(n)
    ensures ToUpper(NameText(n)) == UpperName(n)
  {
    var s, u := NameText(n), UpperName(n);
    assert |s| == |u|;
    assert forall i :: 0 <= i < |s| ==> UpperChar(s[i]) == u[i];
  }

  lemma UpperNameType(n: TypeName)
    requires IsSimple(n)
    ensures UpperKeyword(UpperName(n)) == Ok(NameDenotes(n))
  {
  }

  lemma NameRoundTrip(n: TypeName)
    requires IsSimple(n)
    ensures SimpleType(NameText(n)) == Ok(NameDenotes(n))
  {
    assert LowerWord(NameText(n));
    LowerWordText(NameText(n));
    UpperNameText(n);
    UpperNameType(n);
  }

  lemma MetadataRoundTrip(m: map<string, string>)
    ensures (map k | k in MetadataJson(m).members && MetadataJson(m).members[k].JString? ::
               MetadataJson(m).members[k].s) == m
  {
  }

  /** A wrapped description without metadata of its own. */
  lemma DescribeWrapped(inner: map<string, Json>, kind: string)
    requires LowerWord(kind)
    requires "type" in inner && inner["type"] == JString(kind) && "metadata" !in inner
    ensures Describe(Wrap(inner)) == Ok(Described(JObject(inner), kind, map[]))
  {
    LowerWordText(kind);
    assert MetadataOf(JObject(inner)) == map[];
  }

  lemma DescribeWithMetadata(inner: map<string, Json>, kind: string, m: map<string, string>)
    requires LowerWord(kind)
    requires "type" in inner && inner["type"] == JString(kind) && "metadata" !in inner
    ensures Describe(WrapWithMetadata(inner, m)) == Ok(Described(JObject(inner), kind, m))
  {
    LowerWordText(kind);
    var v := WrapWithMetadata(inner, m);
    assert v.Get("type") == Some(JObject(inner)) && v.Get("metadata") == Some(MetadataJson(m));
    MetadataRoundTrip(m);
    assert MetadataOf(v) == m;
    assert MetadataOf(JObject(inner)) == map[];
    assert m + map[] == m;
  }

  lemma UnitsRoundTrip(yearMonth: bool)
    ensures IntervalOf(ToUpper(Trim(StartUnit(yearMonth))), ToUpper(Trim(EndUnit(yearMonth))))
            == Ok(Interval(if yearMonth then YearMonth else DayTime))
  {
    UnitTexts();
  }

  lemma UnitTexts()
    ensures ToUpper(Trim("year")) == "YEAR" && ToUpper(Trim("month")) == "MONTH"
    ensures ToUpper(Trim("day")) == "DAY" && ToUpper(Trim("time")) == "TIME"
  {
    LowerWordText("year");
    LowerWordText("month");
    LowerWordText("day");
    LowerWordText("time");
  }

  function IntervalInfo(start: string, end: string): map<string, Json> {
    map["type" := JString("interval"), "startUnit" := JString(start), "endUnit" := JString(end)]
  }

  lemma ParseIntervalInfo(start: string, end: string)
    ensures ParseInterval(JObject(IntervalInfo(start, end))) == IntervalOf(ToUpper(Trim(start)), ToUpper(Trim(end)))
  {
    var info := JObject(IntervalInfo(start, end));
    assert info.Get("startUnit") == Some(JString(start)) && info.Get("endUnit") == Some(JString(end));
  }

  lemma IntervalFromJson(start: string, end: string)
    ensures FromJson(Wrap(IntervalInfo(start, end))) == IntervalOf(ToUpper(Trim(start)), ToUpper(Trim(end)))
  {
    DescribeWrapped(IntervalInfo(start, end), "interval");
    ParseIntervalInfo(start, end);
  }

  lemma IntervalRoundTrip(yearMonth: bool)
    ensures FromJson(IntervalJson(yearMonth)) == Ok(Interval(if yearMonth then YearMonth else DayTime))
  {
    IntervalFromJson(StartUnit(yearMonth), EndUnit(yearMonth));
    UnitsRoundTrip(yearMonth);
  }

  lemma DecimalRoundTrip(p: u8, s: i8)
    ensures FromJson(DecimalJson(p, s)) ==
            if FitsDecimal128(p, s) then Ok(Decimal128(p, s)) else Err(InvalidArgument)
  {
    var inner := map["type" := JString("decimal"), "precision" := JNumber(p), "scale" := JNumber(s)];
    DescribeWrapped(inner, "decimal");
    ParseDecimalInfo(inner, p, s);
  }

  lemma ParseDecimalInfo(inner: map<string, Json>, p: u8, s: i8)
    requires inner == map["type" := JString("decimal"), "precision" := JNumber(p), "scale" := JNumber(s)]
    ensures UnityType.ParseDecimal(JObject(inner)) ==
            if FitsDecimal128(p, s) then Ok(Decimal128(p, s)) else Err(InvalidArgument)
  {
    var info := JObject(inner);
    assert info.Get("precision") == Some(JNumber(p)) && info.Get("scale") == Some(JNumber(s));
    assert CastU8(p) == p && CastI8(s) == s;
  }

  lemma ArrayFromJson(e: Json, n: bool, m: map<string, string>)
    ensures FromJson(ArrayJson(e, n, m)) ==
            match FromJson(e)
            case Err(x) => Err(x)
            case Ok(t) => Ok(ListOf(t, n, m))
  {
    var inner := map["type" := JString("array"), "elementType" := e, "containsNull" := JBool(n)];
    var info := JObject(inner);
    DescribeWithMetadata(inner, "array", m);
    assert info.Get("elementType") == Some(e) && info.Get("containsNull") == Some(JBool(n));
  }

  lemma MapFromJson(k: Json, v: Json, n: bool, m: map<string, string>)
    ensures FromJson(MapJson(k, v, n, m)) ==
            match FromJson(k)
            case Err(x) => Err(x)
            case Ok(kt) =>
              match FromJson(v)
              case Err(x) => Err(x)
              case Ok(vt) => Ok(MapWith(kt, vt, n, m))
  {
    var inner := map["type" := JString("map"), "keyType" := k, "valueType" := v, "valueContainsNull" := JBool(n)];
    DescribeWithMetadata(inner, "map", m);
    MapInfo(inner, k, v, n);
  }

  lemma MapInfo(inner: map<string, Json>, k: Json, v: Json, n: bool)
    requires inner == map["type" := JString("map"), "keyType" := k, "valueType" := v, "valueContainsNull" := JBool(n)]
    ensures var info := JObject(inner);
            && info.Get("keyType") == Some(k) && info.Get("valueType") == Some(v)
            && info.Get("valueContainsNull") == Some(JBool(n))
  {
  }

  lemma StructFromJson(items: seq<Json>)
    ensures FromJson(StructJson(items)) ==
            match FieldsFromJson(items)
            case Err(x) => Err(x)
            case Ok(fields) => Ok(Struct(fields))
  {
    var inner := map["type" := JString("struct"), "fields" := JArray(items)];
    DescribeWrapped(inner, "struct");
    assert JObject(inner).Get("fields") == Some(JArray(items));
  }

  lemma FieldRoundTrip(name: string, t: Json, nullable: bool, m: map<string, string>)
    ensures var v := FieldJson(name, t, nullable, m);
            && v.Get("name") == Some(JString(name))
            && v.Get("type") == Some(t)
            && BoolOr(v.Get("nullable"), true) == nullable
            && MetadataOf(v) == m
  {
    MetadataRoundTrip(m);
  }

  lemma {:induction false} DecodeEncode(x: Tree)
    requires Simple(x)
    ensures FromJson(Encode(x)) == Outcome(x)
    decreases x, 1
  {
    match x
    case Leaf(n) => NameRoundTrip(n);
    case Span(ym) => IntervalRoundTrip(ym);
    case Dec(p, s) => DecimalRoundTrip(p, s);
    case Arr(e, n, m) =>
      DecodeEncode(e);
      ArrayFromJson(Encode(e), n, m);
    case Dict(k, v, n, m) =>
      DecodeEncode(k);
      DecodeEncode(v);
      MapFromJson(Encode(k), Encode(v), n, m);
    case Rec(bs) =>
      DecodeBranches(bs);
      StructFromJson(EncodeBranches(bs));
  }

  lemma {:induction false} DecodeBranches(bs: seq<Branch>)
    requires SimpleBranches(bs)
    ensures FieldsFromJson(EncodeBranches(bs)) ==
            if BranchesFit(bs) then Ok(DenoteBranches(bs)) else Err(InvalidArgument)
    decreases bs, 0
  {
    if bs != [] {
      DecodeEncode(bs[0].tree);
      DecodeBranches(bs[1..]);
      FieldRoundTrip(bs[0].name, Encode(bs[0].tree), bs[0].nullable, bs[0].metadata);
      assert EncodeBranches(bs)[1..] == EncodeBranches(bs[1..]);
    }
  }

  // From Arrow types to trees

  function TreeOf(t: DataType): (r: Result<Tree>)
    ensures r.Ok? ==> Simple(r.value)
    decreases t, 1
  {
    if t.IsDecimal() then
      if t.Decimal256? && !FitsDecimal128(t.precision, t.scale) then Err(InvalidArgument)
      else Ok(Dec(t.precision, t.scale))
    else if IsUnityList(t) then
      var element :- TreeOf(t.item.dataType);
      Ok(Arr(element, t.item.nullable, t.item.metadata))
    else if t == Duration(Microsecond) then Ok(Span(false))
    else if t.Interval? then
      if t.interval == MonthDayNano then Err(InvalidArgument) else Ok(Span(t.interval == YearMonth))
    else if t.IsKeyValueMap() then
      var k :- TreeOf(t.entries.dataType.fields[0].dataType);
      var v :- TreeOf(t.entries.dataType.fields[1].dataType);
      Ok(Dict(k, v, t.entries.dataType.fields[1].nullable, t.entries.metadata))
    else if t.Map? then Err(InvalidArgument)
    else if t.Struct? then
      var bs :- BranchesOf(t.fields);
      Ok(Rec(bs))
    else
      match LeafName(t)
      case Some(n) => Ok(Leaf(n))
      case None => Err(NotSupported)
  }

  function BranchesOf(fields: seq<Field>): (r: Result<seq<Branch>>)
    ensures r.Ok? ==> |r.value| == |fields| && SimpleBranches(r.value)
    decreases fields, 0
  {
    if fields == [] then Ok([])
    else
      var first :- TreeOf(fields[0].dataType);
      var rest :- BranchesOf(fields[1..]);
      var bs := [Branch(fields[0].name, first, fields[0].nullable, fields[0].metadata)] + rest;
      assert bs[1..] == rest;
      Ok(bs)
  }

  function EncodeResult(x: Result<Tree>): Result<Json> {
    match x
    case Err(e) => Err(e)
    case Ok(x) => Ok(Encode(x))
  }

  /** Printing is encoding the tree. */
  lemma {:induction false} ToJsonIsEncode(t: DataType)
    ensures ToJson(t) == EncodeResult(TreeOf(t))
    decreases t, 1
  {
    if IsUnityList(t) {
      ListToJson(t);
    } else if t.Struct? {
      StructToJson(t);
    } else if t.Map? {
      MapToJson(t);
    } else {
      LeafToJson(t);
    }
  }

  lemma LeafToJson(t: DataType)
    requires !IsUnityList(t) && !t.Struct? && !t.Map?
    ensures ToJson(t) == EncodeResult(TreeOf(t))
  {
  }

  lemma {:induction false} ListToJson(t: DataType)
    requires IsUnityList(t)
    ensures ToJson(t) == EncodeResult(TreeOf(t))
    decreases t, 0
  {
    ToJsonIsEncode(t.item.dataType);
  }

  lemma {:induction false} StructToJson(t: DataType)
    requires t.Struct?
    ensures ToJson(t) == EncodeResult(TreeOf(t))
    decreases t, 0
  {
    FieldsToJsonIsEncode(t.fields);
  }

  lemma {:induction false} MapToJson(t: DataType)
    requires t.Map?
    ensures ToJson(t) == EncodeResult(TreeOf(t))
    decreases t, 0
  {
    if t.IsKeyValueMap() {
      ToJsonIsEncode(t.entries.dataType.fields[0].dataType);
      ToJsonIsEncode(t.entries.dataType.fields[1].dataType);
    }
  }

  lemma {:induction false} FieldsToJsonIsEncode(fields: seq<Field>)
    ensures FieldsToJson(fields) ==
            match BranchesOf(fields)
            case Err(e) => Err(e)
            case Ok(bs) => Ok(EncodeBranches(bs))
    decreases fields, 0
  {
    if fields != [] {
      ToJsonIsEncode(fields[0].dataType);
      FieldsToJsonIsEncode(fields[1..]);
      if BranchesOf(fields).Ok? {
        assert BranchesOf(fields).value[1..] == BranchesOf(fields[1..]).value;
      }
    }
  }

  lemma NameLeafDenotes(t: DataType)
    requires LeafName(t).Some?
    ensures NameDenotes(LeafName(t).value) == LeafNormal(t)
  {
    if t.IsInteger() {
      IntegerDenotes(t);
    }
  }

  lemma IntegerDenotes(t: DataType)
    requires t.IsInteger()
    ensures LeafName(t).Some? ==> NameDenotes(LeafName(t).value) == LeafNormal(t)
  {
  }

  lemma DurationDenotes(t: DataType)
    requires t.Duration? && TreeOf(t).Ok?
    ensures var x := TreeOf(t).value; Denote(x) == Normal(t) && Fits(x) == DecimalsFit(t)
  {
    assert TreeOf(t) == Ok(Span(false));
  }

  lemma IntervalDenotes(t: DataType)
    requires t.Interval? && TreeOf(t).Ok?
    ensures var x := TreeOf(t).value; Denote(x) == Normal(t) && Fits(x) == DecimalsFit(t)
  {
    assert TreeOf(t) == Ok(Span(t.interval == YearMonth));
  }

  lemma LeafDenotes(t: DataType)
    requires !IsUnityList(t) && !t.Struct? && !t.Map? && TreeOf(t).Ok?
    ensures var x := TreeOf(t).value; Denote(x) == Normal(t) && Fits(x) == DecimalsFit(t)
  {
    if t.IsDecimal() {
      return;
    }
    if t.Duration? {
      DurationDenotes(t);
      return;
    }
    if t.Interval? {
      IntervalDenotes(t);
      return;
    }
    NameLeafDenotes(t);
    assert TreeOf(t) == Ok(Leaf(LeafName(t).value));
  }

  /** The tree of a type denotes its normal form and has its decimals. */
  lemma {:induction false} TreeDenotes(t: DataType)
    requires TreeOf(t).Ok?
    ensures var x := TreeOf(t).value; Denote(x) == Normal(t) && Fits(x) == DecimalsFit(t)
    decreases t, 1
  {
    if IsUnityList(t) {
      ListDenotes(t);
    } else if t.Struct? {
      StructDenotes(t);
    } else if t.Map? {
      MapDenotes(t);
    } else {
      LeafDenotes(t);
    }
  }

  lemma {:induction false} ListDenotes(t: DataType)
    requires IsUnityList(t) && TreeOf(t).Ok?
    ensures var x := TreeOf(t).value; Denote(x) == Normal(t) && Fits(x) == DecimalsFit(t)
    decreases t, 0
  {
    TreeDenotes(t.item.dataType);
  }

  lemma {:induction false} StructDenotes(t: DataType)
    requires t.Struct? && TreeOf(t).Ok?
    ensures var x := TreeOf(t).value; Denote(x) == Normal(t) && Fits(x) == DecimalsFit(t)
    decreases t, 0
  {
    BranchesDenote(t.fields);
  }

  lemma {:induction false} MapDenotes(t: DataType)
    requires t.Map? && TreeOf(t).Ok?
    ensures var x := TreeOf(t).value; Denote(x) == Normal(t) && Fits(x) == DecimalsFit(t)
    decreases t, 0
  {
    TreeDenotes(t.entries.dataType.fields[0].dataType);
    TreeDenotes(t.entries.dataType.fields[1].dataType);
  }

  lemma {:induction false} BranchesDenote(fields: seq<Field>)
    requires BranchesOf(fields).Ok?
    ensures var bs := BranchesOf(fields).value;
            DenoteBranches(bs) == NormalFields(fields) && BranchesFit(bs) == FieldsFit(fields)
    decreases fields, 0
  {
    if fields != [] {
      TreeDenotes(fields[0].dataType);
      BranchesDenote(fields[1..]);
      assert BranchesOf(fields).value[1..] == BranchesOf(fields[1..]).value;
    }
  }

  // The theorems

  /**
  Parsing a printed type succeeds exactly when every decimal fits 128 bits, and then gives
  the normal form, with the metadata of list items, map entries and struct fields kept at
  every depth.
  */
  lemma {:induction false} FromJsonInvertsToJson(t: DataType)
    requires ToJson(t).Ok?
    ensures FromJson(ToJson(t).value) == if DecimalsFit(t) then Ok(Normal(t)) else Err(InvalidArgument)
  {
    ToJsonIsEncode(t);
    DecodeEncode(TreeOf(t).value);
    TreeDenotes(t);
  }

  /** An object whose type is one object with a string type: wrapped once and not more, at every depth. */
  predicate WrappedOnce(v: Json)
    decreases v, 1
  {
    match v
    case JString(_) => true
    case JObject(_) =>
      (match v.Get("type")
       case Some(JObject(m)) =>
         && "type" in m && m["type"].JString?
         && ("elementType" in m ==> WrappedOnce(m["elementType"]))
         && ("keyType" in m ==> WrappedOnce(m["keyType"]))
         && ("valueType" in m ==> WrappedOnce(m["valueType"]))
         && ("fields" in m ==> m["fields"].JArray? && FieldsWrappedOnce(m["fields"].items))
       case _ => false)
    case _ => false
  }

  predicate FieldsWrappedOnce(items: seq<Json>)
    decreases items, 0
  {
    items == [] ||
    (items[0].Get("type").Some? && WrappedOnce(items[0].Get("type").value) && FieldsWrappedOnce(items[1..]))
  }

  lemma ArrayWrapsOnce(e: Json, n: bool, m: map<string, string>)
    requires WrappedOnce(e)
    ensures WrappedOnce(ArrayJson(e, n, m))
  {
    assert ArrayJson(e, n, m).Get("type").Some?;
  }

  lemma MapWrapsOnce(k: Json, v: Json, n: bool, m: map<string, string>)
    requires WrappedOnce(k) && WrappedOnce(v)
    ensures WrappedOnce(MapJson(k, v, n, m))
  {
    assert MapJson(k, v, n, m).Get("type").Some?;
  }

  lemma {:induction false} EncodeWrapsOnce(x: Tree)
    ensures WrappedOnce(Encode(x))
    decreases x, 1
  {
    match x
    case Leaf(_) =>
    case Span(_) =>
    case Dec(_, _) =>
    case Arr(e, n, m) =>
      EncodeWrapsOnce(e);
      ArrayWrapsOnce(Encode(e), n, m);
    case Dict(k, v, n, m) =>
      EncodeWrapsOnce(k);
      EncodeWrapsOnce(v);
      MapWrapsOnce(Encode(k), Encode(v), n, m);
    case Rec(bs) => EncodeBranchesWrapOnce(bs);
  }

  lemma {:induction false} EncodeBranchesWrapOnce(bs: seq<Branch>)
    ensures FieldsWrappedOnce(EncodeBranches(bs))
    decreases bs, 0
  {
    if bs != [] {
      EncodeWrapsOnce(bs[0].tree);
      EncodeBranchesWrapOnce(bs[1..]);
      FieldRoundTrip(bs[0].name, Encode(bs[0].tree), bs[0].nullable, bs[0].metadata);
      assert EncodeBranches(bs)[1..] == EncodeBranches(bs[1..]);
    }
  }

  /** The printer never wraps a type twice. */
  lemma NoDoubleWrapping(t: DataType)
    requires ToJson(t).Ok?
    ensures WrappedOnce(ToJson(t).value)
  {
    ToJsonIsEncode(t);
    EncodeWrapsOnce(TreeOf(t).value);
  }
}
