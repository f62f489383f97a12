/** Spark schema JSON round trips, and agrees with the Hive type string of the same type. */
module SparkRoundTrip {
  import opened Arrow
  import opened Text
  import opened Json
  import opened HiveSyntax
  import opened SparkSchema
  import HiveShapeParse

  // The type that comes back

  function LeafNormal(t: DataType): DataType {
    match t
    case UInt8 => Int8
    case UInt16 => Int16
    case UInt32 => Int32
    case UInt64 => Int64
    case Float16 => Float32
    case LargeUtf8 | Utf8View => Utf8
    case FixedSizeBinary(_) | LargeBinary | BinaryView => Binary
    case Date64 => Date32
    case Timestamp(_, timezone) => if timezone.Some? then UTC_MICROS else LOCAL_MICROS
    case _ => t
  }

  /** Names keep their case; field, element and value nullability and field comments are kept at every depth. */
  function Normal(t: DataType): DataType
    decreases t, 1
  {
    if t.IsDecimal() then Decimal128(t.precision, t.scale)
    else if t.IsList() then ListOf(Normal(t.item.dataType), t.item.nullable)
    else if t.Struct? then Struct(NormalFields(t.fields))
    else if t.IsKeyValueMap() then
      MapWith(Normal(t.entries.dataType.fields[0].dataType), Normal(t.entries.dataType.fields[1].dataType),
              t.entries.dataType.fields[1].nullable)
    else if t.Dictionary? then Normal(t.values)
    else LeafNormal(t)
  }

  function NormalField(f: Field): Field
    decreases f, 2
  {
    Field(f.name, Normal(f.dataType), f.nullable, CommentMetadata(CommentOf(f.metadata)))
  }

  function NormalFields(fields: seq<Field>): (r: seq<Field>)
    ensures |r| == |fields|
    ensures forall i :: 0 <= i < |fields| ==> r[i] == NormalField(fields[i])
    decreases fields, 0
  {
    if fields == [] then [] else [NormalField(fields[0])] + NormalFields(fields[1..])
  }

  // The shapes of Spark schema JSON

  datatype Tree =
    | Leaf(word: SparkWord)
    | Dec(precision: u8, scale: i8)
    | Arr(element: Tree, containsNull: bool)
    | Rec(branches: seq<Branch>)
    | Dict(key: Tree, value: Tree, valueContainsNull: bool)

  datatype Branch = Branch(name: string, tree: Tree, nullable: bool, comment: Option<string>)

  function Encode(x: Tree): Json
    decreases x, 1
  {
    match x
    case Leaf(w) => JString(WordText(w))
    case Dec(p, s) => JString(DecimalText(p, s))
    case Arr(e, n) => ArrayJson(Encode(e), n)
    case Rec(bs) => StructJson(EncodeBranches(bs))
    case Dict(k, v, n) => MapJson(Encode(k), Encode(v), n)
  }

  function EncodeBranches(bs: seq<Branch>): (r: seq<Json>)
    ensures |r| == |bs|
    decreases bs, 0
  {
    if bs == [] then []
    else [FieldJson(bs[0].name, Encode(bs[0].tree), bs[0].nullable, bs[0].comment)] + EncodeBranches(bs[1..])
  }

  function WordDenotes(w: SparkWord): DataType {
    match w
    case SwVoid => Null
    case SwBoolean => Boolean
    case SwByte => Int8
    case SwShort => Int16
    case SwInteger => Int32
    case SwLong => Int64
    case SwFloat => Float32
    case SwDouble => Float64
    case SwString => Utf8
    case SwBinary => Binary
    case SwDate => Date32
    case SwTimestamp => UTC_MICROS
    case SwTimestampNtz => LOCAL_MICROS
  }

  function Denote(x: Tree): DataType
    decreases x, 1
  {
    match x
    case Leaf(w) => WordDenotes(w)
    case Dec(p, s) => Decimal128(p, s)
    case Arr(e, n) => ListOf(Denote(e), n)
    case Rec(bs) => Struct(DenoteBranches(bs))
    case Dict(k, v, n) => MapWith(Denote(k), Denote(v), n)
  }

  function DenoteBranches(bs: seq<Branch>): (r: seq<Field>)
    ensures |r| == |bs|
    decreases bs, 0
  {
    if bs == [] then []
    else [Field(bs[0].name, Denote(bs[0].tree), bs[0].nullable, CommentMetadata(bs[0].comment))]
         + DenoteBranches(bs[1..])
  }

  lemma WordRoundTrip(w: SparkWord)
    ensures NamedType(WordText(w)) == Ok(WordDenotes(w))
  {
  }

  lemma NotAWord(s: string)
    requires |s| >= 2 && s[0] == 'd' && s[1] == 'e'
    ensures WordType(s).None?
  {
  }

  lemma DecimalRoundTrip(p: u8, s: i8)
    ensures NamedType(DecimalText(p, s)) == Ok(Decimal128(p, s))
  {
    NotAWord(DecimalText(p, s));
    HiveShapeParse.ParsePrintedDecimal(Hive, p, s);
  }

  lemma ArrayFromJson(element: Json, n: bool)
    requires FromJson(element).Ok?
    ensures FromJson(ArrayJson(element, n)) == Ok(ListOf(FromJson(element).value, n))
  {
  }

  lemma MapFromJson(key: Json, value: Json, n: bool)
    requires FromJson(key).Ok? && FromJson(value).Ok?
    ensures FromJson(MapJson(key, value, n)) == Ok(MapWith(FromJson(key).value, FromJson(value).value, n))
  {
    MapInfo(key, value, n);
  }

  lemma MapInfo(key: Json, value: Json, n: bool)
    ensures var v := MapJson(key, value, n);
            && v.Get("type") == Some(JString("map"))
            && v.Get("keyType") == Some(key) && v.Get("valueType") == Some(value)
            && v.Get("valueContainsNull") == Some(JBool(n))
  {
  }

  lemma {:induction false} StructFromJson(items: seq<Json>)
    requires FieldsFromJson(items).Ok?
    ensures FromJson(StructJson(items)) == Ok(Struct(FieldsFromJson(items).value))
    ensures SchemaFromJson(StructJson(items)) == FieldsFromJson(items)
  {
  }

  lemma CommentRoundTrip(name: string, t: Json, nullable: bool, comment: Option<string>)
    ensures var v := FieldJson(name, t, nullable, comment);
            && v.Get("name") == Some(JString(name))
            && v.Get("type") == Some(t)
            && BoolOr(v.Get("nullable"), true) == nullable
            && CommentFromJson(v) == comment
  {
  }

  /** Parsing an encoded tree gives the type it denotes. */
  lemma {:induction false} DecodeEncode(x: Tree)
    ensures FromJson(Encode(x)) == Ok(Denote(x))
    decreases x, 1
  {
    match x
    case Leaf(w) => WordRoundTrip(w);
    case Dec(p, s) => DecimalRoundTrip(p, s);
    case Arr(e, n) =>
      DecodeEncode(e);
      ArrayFromJson(Encode(e), n);
    case Rec(bs) =>
      DecodeBranches(bs);
      StructFromJson(EncodeBranches(bs));
    case Dict(k, v, n) =>
      DecodeEncode(k);
      DecodeEncode(v);
      MapFromJson(Encode(k), Encode(v), n);
  }

  lemma {:induction false} DecodeBranches(bs: seq<Branch>)
    ensures FieldsFromJson(EncodeBranches(bs)) == Ok(DenoteBranches(bs))
    decreases bs, 0
  {
    if bs != [] {
      DecodeEncode(bs[0].tree);
      DecodeBranches(bs[1..]);
      CommentRoundTrip(bs[0].name, Encode(bs[0].tree), bs[0].nullable, bs[0].comment);
      assert EncodeBranches(bs)[1..] == EncodeBranches(bs[1..]);
    }
  }

  // From Arrow types to trees

  function TreeOf(t: DataType): Result<Tree>
    decreases t, 1
  {
    if t.IsDecimal() then Ok(Dec(t.precision, t.scale))
    else if t.IsList() then
      var element :- TreeOf(t.item.dataType);
      Ok(Arr(element, t.item.nullable))
    else if t.Struct? then
      var bs :- BranchesOf(t.fields);
      Ok(Rec(bs))
    else if t.IsKeyValueMap() then
      var k :- TreeOf(t.entries.dataType.fields[0].dataType);
      var v :- TreeOf(t.entries.dataType.fields[1].dataType);
      Ok(Dict(k, v, t.entries.dataType.fields[1].nullable))
    else if t.Map? then Err(InvalidArgument)
    else if t.Dictionary? then TreeOf(t.values)
    else
      match LeafWord(t)
      case Some(w) => Ok(Leaf(w))
      case None => Err(NotSupported)
  }

  function BranchesOf(fields: seq<Field>): (r: Result<seq<Branch>>)
    ensures r.Ok? ==> |r.value| == |fields|
    decreases fields, 0
  {
    if fields == [] then Ok([])
    else
      var first :- TreeOf(fields[0].dataType);
      var rest :- BranchesOf(fields[1..]);
      Ok([Branch(fields[0].name, first, fields[0].nullable, CommentOf(fields[0].metadata))] + rest)
  }

  function EncodeResult(x: Result<Tree>): Result<Json> {
    match x
    case Err(e) => Err(e)
    case Ok(x) => Ok(Encode(x))
  }

  /** Printing is encoding the tree. */
  lemma {:induction false} ToJsonIsEncode(t: DataType)
    ensures ToJson(t) == EncodeResult(TreeOf(t))
    decreases t, 1
  {
    if t.IsList() {
      ListToJson(t);
    } else if t.Struct? {
      FieldsToJsonIsEncode(t.fields);
    } else if t.Map? {
      MapToJson(t);
    } else if t.Dictionary? {
      ToJsonIsEncode(t.values);
    } else {
      LeafToJson(t);
    }
  }

  lemma LeafToJson(t: DataType)
    requires !t.IsList() && !t.Struct? && !t.Map? && !t.Dictionary?
    ensures ToJson(t) == EncodeResult(TreeOf(t))
  {
  }

  lemma {:induction false} ListToJson(t: DataType)
    requires t.IsList()
    ensures ToJson(t) == EncodeResult(TreeOf(t))
    decreases t, 0
  {
    ToJsonIsEncode(t.item.dataType);
  }

  lemma {:induction false} MapToJson(t: DataType)
    requires t.Map?
    ensures ToJson(t) == EncodeResult(TreeOf(t))
    decreases t, 0
  {
    if t.IsKeyValueMap() {
      ToJsonIsEncode(t.entries.dataType.fields[0].dataType);
      ToJsonIsEncode(t.entries.dataType.fields[1].dataType);
    }
  }

  lemma {:induction false} FieldsToJsonIsEncode(fields: seq<Field>)
    ensures FieldsToJson(fields) ==
            match BranchesOf(fields)
            case Err(e) => Err(e)
            case Ok(bs) => Ok(EncodeBranches(bs))
    decreases fields, 0
  {
    if fields != [] {
      ToJsonIsEncode(fields[0].dataType);
      FieldsToJsonIsEncode(fields[1..]);
      if BranchesOf(fields).Ok? {
        assert BranchesOf(fields).value[1..] == BranchesOf(fields[1..]).value;
      }
    }
  }

  lemma LeafDenotes(t: DataType)
    requires LeafWord(t).Some?
    ensures WordDenotes(LeafWord(t).value) == LeafNormal(t)
  {
    if t.IsInteger() {
      IntegerDenotes(t);
    }
  }

  lemma IntegerDenotes(t: DataType)
    requires t.IsInteger()
    ensures LeafWord(t).Some? ==> WordDenotes(LeafWord(t).value) == LeafNormal(t)
  {
  }

  /** The tree of a type denotes its normal form. */
  lemma {:induction false} TreeDenotes(t: DataType)
    requires TreeOf(t).Ok?
    ensures Denote(TreeOf(t).value) == Normal(t)
    decreases t, 1
  {
    if t.IsList() {
      ListDenotes(t);
    } else if t.Struct? {
      BranchesDenote(t.fields);
    } else if t.Map? {
      MapDenotes(t);
    } else if t.Dictionary? {
      TreeDenotes(t.values);
    } else if !t.IsDecimal() {
      LeafDenotes(t);
    }
  }

  lemma {:induction false} ListDenotes(t: DataType)
    requires t.IsList() && TreeOf(t).Ok?
    ensures Denote(TreeOf(t).value) == Normal(t)
    decreases t, 0
  {
    TreeDenotes(t.item.dataType);
  }

  lemma {:induction false} MapDenotes(t: DataType)
    requires t.Map? && TreeOf(t).Ok?
    ensures Denote(TreeOf(t).value) == Normal(t)
    decreases t, 0
  {
    TreeDenotes(t.entries.dataType.fields[0].dataType);
    TreeDenotes(t.entries.dataType.fields[1].dataType);
  }

  lemma {:induction false} BranchesDenote(fields: seq<Field>)
    requires BranchesOf(fields).Ok?
    ensures DenoteBranches(BranchesOf(fields).value) == NormalFields(fields)
    decreases fields, 0
  {
    if fields != [] {
      TreeDenotes(fields[0].dataType);
      BranchesDenote(fields[1..]);
      assert BranchesOf(fields).value[1..] == BranchesOf(fields[1..]).value;
    }
  }

  // The theorems

  /** Parsing undoes printing on every accepted type. */
  lemma {:induction false} FromJsonInvertsToJson(t: DataType)
    requires ToJson(t).Ok?
    ensures FromJson(ToJson(t).value) == Ok(Normal(t))
  {
    ToJsonIsEncode(t);
    DecodeEncode(TreeOf(t).value);
    TreeDenotes(t);
  }

  /** The same for a whole schema, field by field. */
  lemma {:induction false} SchemaRoundTrip(fields: seq<Field>)
    requires SchemaToJson(fields).Ok?
    ensures SchemaFromJson(SchemaToJson(fields).value) == Ok(NormalFields(fields))
  {
    FieldsToJsonIsEncode(fields);
    var bs := BranchesOf(fields).value;
    DecodeBranches(bs);
    BranchesDenote(fields);
    StructFromJson(EncodeBranches(bs));
  }

  // Printing again

  lemma TreeOfWord(w: SparkWord)
    ensures TreeOf(WordDenotes(w)) == Ok(Leaf(w))
  {
  }

  lemma TreeOfDecimal(p: u8, s: i8)
    ensures TreeOf(Decimal128(p, s)) == Ok(Dec(p, s))
  {
  }

  lemma {:induction false} TreeOfList(t: DataType, n: bool)
    requires TreeOf(t).Ok?
    ensures TreeOf(ListOf(t, n)) == Ok(Arr(TreeOf(t).value, n))
  {
  }

  lemma {:induction false} TreeOfStruct(fields: seq<Field>)
    requires BranchesOf(fields).Ok?
    ensures TreeOf(Struct(fields)) == Ok(Rec(BranchesOf(fields).value))
  {
  }

  lemma {:induction false} TreeOfMap(k: DataType, v: DataType, n: bool)
    requires TreeOf(k).Ok? && TreeOf(v).Ok?
    ensures TreeOf(MapWith(k, v, n)) == Ok(Dict(TreeOf(k).value, TreeOf(v).value, n))
  {
    var t := MapWith(k, v, n);
    assert t.entries.dataType.fields[0].dataType == k && t.entries.dataType.fields[1].dataType == v;
  }

  lemma {:induction false} TreeOfDenoted(x: Tree)
    ensures TreeOf(Denote(x)) == Ok(x)
    decreases x, 1
  {
    if x.Leaf? {
      TreeOfWord(x.word);
      return;
    }
    if x.Dec? {
      TreeOfDecimal(x.precision, x.scale);
      return;
    }
    if x.Arr? {
      TreeOfDenoted(x.element);
      TreeOfList(Denote(x.element), x.containsNull);
      return;
    }
    if x.Rec? {
      BranchesOfDenoted(x.branches);
      TreeOfStruct(DenoteBranches(x.branches));
      return;
    }
    TreeOfDenoted(x.key);
    TreeOfDenoted(x.value);
    TreeOfMap(Denote(x.key), Denote(x.value), x.valueContainsNull);
  }

  lemma {:induction false} BranchesOfDenoted(bs: seq<Branch>)
    ensures BranchesOf(DenoteBranches(bs)) == Ok(bs)
    decreases bs, 0
  {
    if bs != [] {
      TreeOfDenoted(bs[0].tree);
      BranchesOfDenoted(bs[1..]);
      assert DenoteBranches(bs)[1..] == DenoteBranches(bs[1..]);
      assert CommentOf(CommentMetadata(bs[0].comment)) == bs[0].comment;
      assert [bs[0]] + bs[1..] == bs;
    }
  }

  /** Printing the type that came back gives the same JSON: nothing is lost on a second trip. */
  lemma {:induction false} ToJsonOfNormal(t: DataType)
    requires ToJson(t).Ok?
    ensures ToJson(Normal(t)) == ToJson(t)
  {
    ToJsonIsEncode(t);
    TreeDenotes(t);
    TreeOfDenoted(TreeOf(t).value);
    ToJsonIsEncode(Normal(t));
  }
}
