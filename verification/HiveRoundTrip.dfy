/**
Parsing undoes printing for Hive type strings: always for the Hive Metastore catalog, and
for Glue exactly when no decimal stands where Glue's splitters look for a comma.
*/
module HiveRoundTrip {
  import opened Arrow
  import opened Text
  import opened TopLevel
  import opened HiveSyntax
  import opened HiveShape
  import opened HiveShapeParse

  // The type that comes back

  function LeafNormal(dialect: Dialect, t: DataType): DataType {
    match t
    case UInt8 => Int8
    case UInt16 => Int16
    case UInt32 => Int32
    case UInt64 => Int64
    case Float16 => Float32
    case LargeUtf8 | Utf8View => Utf8
    case FixedSizeBinary(_) | LargeBinary | BinaryView => Binary
    case Date64 => Date32
    case Timestamp(_, _) => if dialect == Hive then UTC_MICROS else LOCAL_MICROS
    case Time32(_) | Time64(_) | Duration(_) | Interval(_) => Utf8
    case _ => t
  }

  /** Signed integers, 128-bit decimals, microsecond timestamps, lower-case names, nullable children. */
  function Normal(dialect: Dialect, t: DataType): DataType
    decreases t, 1
  {
    if t.IsDecimal() then Decimal128(t.precision, t.scale)
    else if t.IsList() then List(PlainField("item", Normal(dialect, t.item.dataType), true))
    else if t.Struct? then Struct(NormalFields(dialect, t.fields))
    else if t.IsKeyValueMap() then
      MapOf(dialect, Normal(dialect, t.entries.dataType.fields[0].dataType),
            Normal(dialect, t.entries.dataType.fields[1].dataType))
    else if t.Dictionary? then Normal(dialect, t.values)
    else LeafNormal(dialect, t)
  }

  function NormalFields(dialect: Dialect, fields: seq<Field>): (r: seq<Field>)
    ensures |r| == |fields|
    decreases fields, 0
  {
    if fields == [] then []
    else
      [PlainField(ToLower(fields[0].name), Normal(dialect, fields[0].dataType), true)]
      + NormalFields(dialect, fields[1..])
  }

  predicate TameNames(dialect: Dialect, t: DataType)
    decreases t, 1
  {
    if t.IsList() then TameNames(dialect, t.item.dataType)
    else if t.Struct? then TameFields(dialect, t.fields)
    else if t.IsKeyValueMap() then
      && TameNames(dialect, t.entries.dataType.fields[0].dataType)
      && TameNames(dialect, t.entries.dataType.fields[1].dataType)
    else t.Dictionary? ==> TameNames(dialect, t.values)
  }

  predicate TameFields(dialect: Dialect, fields: seq<Field>)
    decreases fields, 0
  {
    fields == [] ||
    (TameName(dialect, fields[0].name) && TameNames(dialect, fields[0].dataType) && TameFields(dialect, fields[1..]))
  }

  // Where Glue loses its own output

  function Unwrap(t: DataType): DataType {
    if t.Dictionary? then Unwrap(t.values) else t
  }

  predicate ExposedDecimal(dialect: Dialect, t: DataType) {
    dialect == Glue && Unwrap(t).IsDecimal()
  }

  /** In Glue, no decimal is a direct struct field or a direct map key, at any depth. */
  predicate Parseable(dialect: Dialect, t: DataType)
    decreases t, 1
  {
    if t.IsList() then Parseable(dialect, t.item.dataType)
    else if t.Struct? then ParseableFields(dialect, t.fields)
    else if t.IsKeyValueMap() then
      var k, v := t.entries.dataType.fields[0].dataType, t.entries.dataType.fields[1].dataType;
      !ExposedDecimal(dialect, k) && Parseable(dialect, k) && Parseable(dialect, v)
    else t.Dictionary? ==> Parseable(dialect, t.values)
  }

  predicate ParseableFields(dialect: Dialect, fields: seq<Field>)
    decreases fields, 0
  {
    fields == [] ||
    (&& !ExposedDecimal(dialect, fields[0].dataType)
     && Parseable(dialect, fields[0].dataType)
     && ParseableFields(dialect, fields[1..]))
  }

  // From Arrow types to shapes

  /** Decimals the dialect's printer accepts. */
  predicate PrintableDecimals(dialect: Dialect, x: Shape)
    decreases x, 1
  {
    match x
    case Word(_) => true
    case Decimal(precision, scale) => dialect == Hive ==> precision <= 38 && 0 <= scale <= precision
    case ArrayOf(element) => PrintableDecimals(dialect, element)
    case MapOfShapes(key, value) => PrintableDecimals(dialect, key) && PrintableDecimals(dialect, value)
    case StructOf(members) => PrintableMembers(dialect, members)
  }

  predicate PrintableMembers(dialect: Dialect, members: seq<Member>)
    decreases members, 0
  {
    members == [] || (PrintableDecimals(dialect, members[0].shape) && PrintableMembers(dialect, members[1..]))
  }

  function ShapeOf(dialect: Dialect, t: DataType): (r: Result<Shape>)
    ensures r.Ok? ==> PrintableDecimals(dialect, r.value)
    decreases t, 1
  {
    if t.IsDecimal() then
      var _ :- PrintDecimal(dialect, t);
      Ok(Decimal(t.precision, t.scale))
    else if t.IsList() then
      var element :- ShapeOf(dialect, t.item.dataType);
      Ok(ArrayOf(element))
    else if t.Struct? then
      var members :- MembersOf(dialect, t.fields);
      Ok(StructOf(members))
    else if t.IsKeyValueMap() then
      var k :- ShapeOf(dialect, t.entries.dataType.fields[0].dataType);
      var v :- ShapeOf(dialect, t.entries.dataType.fields[1].dataType);
      Ok(MapOfShapes(k, v))
    else if t.Map? then Err(InvalidArgument)
    else if t.Dictionary? then ShapeOf(dialect, t.values)
    else
      match LeafKeyword(t)
      case Some(keyword) => Ok(Word(keyword))
      case None => Err(NotSupported)
  }

  function MembersOf(dialect: Dialect, fields: seq<Field>): (r: Result<seq<Member>>)
    ensures r.Ok? ==> |r.value| == |fields| && PrintableMembers(dialect, r.value)
    decreases fields, 0
  {
    if fields == [] then Ok([])
    else
      var first :- ShapeOf(dialect, fields[0].dataType);
      var rest :- MembersOf(dialect, fields[1..]);
      var members := [Member(fields[0].name, first)] + rest;
      assert members[1..] == rest;
      Ok(members)
  }

  function RenderResult(x: Result<Shape>): Result<string> {
    match x
    case Err(e) => Err(e)
    case Ok(x) => Ok(Render(x))
  }

  /** Printing is rendering the shape. */
  lemma {:induction false} PrintIsRender(dialect: Dialect, t: DataType)
    ensures Print(dialect, t) == RenderResult(ShapeOf(dialect, t))
    decreases t, 1
  {
    if t.IsList() {
      PrintListIsRender(dialect, t);
    } else if t.Struct? {
      PrintStructIsRender(dialect, t);
    } else if t.Map? {
      PrintMapIsRender(dialect, t);
    } else if t.Dictionary? {
      PrintDictionaryIsRender(dialect, t);
    } else {
      PrintLeafIsRender(dialect, t);
    }
  }

  lemma PrintLeafIsRender(dialect: Dialect, t: DataType)
    requires !t.IsList() && !t.Struct? && !t.Map? && !t.Dictionary?
    ensures Print(dialect, t) == RenderResult(ShapeOf(dialect, t))
  {
  }

  lemma {:induction false} PrintDictionaryIsRender(dialect: Dialect, t: DataType)
    requires t.Dictionary?
    ensures Print(dialect, t) == RenderResult(ShapeOf(dialect, t))
    decreases t, 0
  {
    PrintIsRender(dialect, t.values);
  }

  lemma {:induction false} PrintListIsRender(dialect: Dialect, t: DataType)
    requires t.IsList()
    ensures Print(dialect, t) == RenderResult(ShapeOf(dialect, t))
    decreases t, 0
  {
    PrintIsRender(dialect, t.item.dataType);
  }

  lemma {:induction false} PrintStructIsRender(dialect: Dialect, t: DataType)
    requires t.Struct?
    ensures Print(dialect, t) == RenderResult(ShapeOf(dialect, t))
    decreases t, 0
  {
    PrintFieldsIsRender(dialect, t.fields);
  }

  lemma {:induction false} PrintMapIsRender(dialect: Dialect, t: DataType)
    requires t.Map?
    ensures Print(dialect, t) == RenderResult(ShapeOf(dialect, t))
    decreases t, 0
  {
    if t.IsKeyValueMap() {
      PrintIsRender(dialect, t.entries.dataType.fields[0].dataType);
      PrintIsRender(dialect, t.entries.dataType.fields[1].dataType);
    }
  }

  lemma {:induction false} PrintFieldsIsRender(dialect: Dialect, fields: seq<Field>)
    ensures PrintFields(dialect, fields) ==
            match MembersOf(dialect, fields)
            case Err(e) => Err(e)
            case Ok(members) => Ok(RenderMembers(members))
    decreases fields, 0
  {
    if fields != [] {
      PrintIsRender(dialect, fields[0].dataType);
      PrintFieldsIsRender(dialect, fields[1..]);
      if MembersOf(dialect, fields).Ok? {
        assert MembersOf(dialect, fields).value[1..] == MembersOf(dialect, fields[1..]).value;
      }
    }
  }

  lemma LeafDenotes(dialect: Dialect, t: DataType)
    requires LeafKeyword(t).Some?
    ensures KeywordType(dialect, LeafKeyword(t).value) == LeafNormal(dialect, t)
  {
    if t.IsInteger() {
      IntegerDenotes(dialect, t);
    }
  }

  lemma IntegerDenotes(dialect: Dialect, t: DataType)
    requires t.IsInteger()
    ensures LeafKeyword(t).Some? && KeywordType(dialect, LeafKeyword(t).value) == LeafNormal(dialect, t)
  {
  }

  /** The shape of a type carries its tameness and its parseability. */
  lemma {:induction false} ShapeMirrors(dialect: Dialect, t: DataType)
    requires ShapeOf(dialect, t).Ok?
    ensures Mirrors(dialect, ShapeOf(dialect, t).value, t)
    decreases t, 1
  {
    if t.IsList() {
      ShapeMirrors(dialect, t.item.dataType);
      return;
    }
    if t.Struct? {
      MembersMirror(dialect, t.fields);
      return;
    }
    if t.IsKeyValueMap() {
      ShapeMirrors(dialect, t.entries.dataType.fields[0].dataType);
      ShapeMirrors(dialect, t.entries.dataType.fields[1].dataType);
      MapMirrors(dialect, t);
      return;
    }
    if t.Dictionary? {
      ShapeMirrors(dialect, t.values);
      return;
    }
    LeafMirrors(dialect, t);
  }

  predicate Mirrors(dialect: Dialect, x: Shape, t: DataType) {
    && (TameNames(dialect, t) == Tame(dialect, x))
    && (Recoverable(dialect, x) == Parseable(dialect, t))
    && (ExposedComma(dialect, x) == ExposedDecimal(dialect, t))
  }

  lemma {:induction false} MapMirrors(dialect: Dialect, t: DataType)
    requires t.IsKeyValueMap() && ShapeOf(dialect, t).Ok?
    requires var k := t.KeyField().dataType; ShapeOf(dialect, k).Ok? && Mirrors(dialect, ShapeOf(dialect, k).value, k)
    requires var v := t.ValueField().dataType; ShapeOf(dialect, v).Ok? && Mirrors(dialect, ShapeOf(dialect, v).value, v)
    ensures Mirrors(dialect, ShapeOf(dialect, t).value, t)
  {
    assert ShapeOf(dialect, t) == Ok(MapOfShapes(ShapeOf(dialect, t.KeyField().dataType).value,
                                                 ShapeOf(dialect, t.ValueField().dataType).value));
  }

  lemma LeafMirrors(dialect: Dialect, t: DataType)
    requires !t.IsList() && !t.Struct? && !t.Map? && !t.Dictionary? && ShapeOf(dialect, t).Ok?
    ensures Mirrors(dialect, ShapeOf(dialect, t).value, t)
  {
    var x := ShapeOf(dialect, t).value;
    assert x.Decimal? == t.IsDecimal() && (x.Decimal? || x.Word?);
  }

  lemma {:induction false} MembersMirror(dialect: Dialect, fields: seq<Field>)
    requires MembersOf(dialect, fields).Ok?
    ensures var members := MembersOf(dialect, fields).value;
            && (TameFields(dialect, fields) == TameMembers(dialect, members))
            && (RecoverableMembers(dialect, members) == ParseableFields(dialect, fields))
    decreases fields, 0
  {
    if fields != [] {
      ShapeMirrors(dialect, fields[0].dataType);
      MembersMirror(dialect, fields[1..]);
      assert MembersOf(dialect, fields).value[1..] == MembersOf(dialect, fields[1..]).value;
    }
  }

  /** The shape of a type, names lowered, denotes its normal form. */
  lemma {:induction false} ShapeDenotes(dialect: Dialect, t: DataType)
    requires ShapeOf(dialect, t).Ok?
    ensures Denote(dialect, LowerShape(ShapeOf(dialect, t).value)) == Normal(dialect, t)
    decreases t, 1
  {
    if t.IsList() {
      ShapeDenotesList(dialect, t);
    } else if t.Struct? {
      MembersDenote(dialect, t.fields);
    } else if t.Map? {
      ShapeDenotesMap(dialect, t);
    } else if t.Dictionary? {
      ShapeDenotes(dialect, t.values);
    } else if !t.IsDecimal() {
      LeafDenotes(dialect, t);
    }
  }

  lemma {:induction false} ShapeDenotesList(dialect: Dialect, t: DataType)
    requires t.IsList() && ShapeOf(dialect, t).Ok?
    ensures Denote(dialect, LowerShape(ShapeOf(dialect, t).value)) == Normal(dialect, t)
    decreases t, 0
  {
    ShapeDenotes(dialect, t.item.dataType);
  }

  lemma {:induction false} ShapeDenotesMap(dialect: Dialect, t: DataType)
    requires t.Map? && ShapeOf(dialect, t).Ok?
    ensures Denote(dialect, LowerShape(ShapeOf(dialect, t).value)) == Normal(dialect, t)
    decreases t, 0
  {
    ShapeDenotes(dialect, t.entries.dataType.fields[0].dataType);
    ShapeDenotes(dialect, t.entries.dataType.fields[1].dataType);
  }

  lemma {:induction false} MembersDenote(dialect: Dialect, fields: seq<Field>)
    requires MembersOf(dialect, fields).Ok?
    ensures DenoteMembers(dialect, LowerMembers(MembersOf(dialect, fields).value)) == NormalFields(dialect, fields)
    decreases fields, 0
  {
    if fields != [] {
      var members := MembersOf(dialect, fields).value;
      assert members[1..] == MembersOf(dialect, fields[1..]).value;
      assert LowerMembers(members)[1..] == LowerMembers(members[1..]);
      ShapeDenotes(dialect, fields[0].dataType);
      MembersDenote(dialect, fields[1..]);
    }
  }

  // The theorems

  /** Printing then parsing, in either dialect. */
  lemma {:induction false} ParseInvertsPrint(dialect: Dialect, t: DataType)
    requires Print(dialect, t).Ok? && TameNames(dialect, t)
    ensures Parse(dialect, Print(dialect, t).value) ==
            if Parseable(dialect, t) then Ok(Normal(dialect, t)) else Err(InvalidArgument)
  {
    PrintIsRender(dialect, t);
    ShapeMirrors(dialect, t);
    var x := ShapeOf(dialect, t).value;
    LowerShapeTame(dialect, x);
    ShapeDenotes(dialect, t);
    RenderLower(x);
    ParseIgnoresCase(dialect, Render(x));
    ParseInvertsRender(dialect, LowerShape(x));
  }

  /** Case does not matter to the parser. */
  lemma ParseIgnoresCase(dialect: Dialect, text: string)
    ensures Parse(dialect, ToLower(text)) == Parse(dialect, text)
  {
    LowerTrim(text);
    LowerIdempotent(Trim(text));
  }

  /** The Metastore's parser undoes its printer on every accepted type. */
  lemma {:induction false} HiveParseInvertsPrint(t: DataType)
    requires Print(Hive, t).Ok? && TameNames(Hive, t)
    ensures Parse(Hive, Print(Hive, t).value) == Ok(Normal(Hive, t))
  {
    ParseInvertsPrint(Hive, t);
    HiveAlwaysParseable(t);
  }

  lemma {:induction false} HiveAlwaysParseable(t: DataType)
    ensures Parseable(Hive, t)
    decreases t, 1
  {
    if t.IsList() {
      HiveAlwaysParseable(t.item.dataType);
    } else if t.Struct? {
      HiveFieldsParseable(t.fields);
    } else if t.IsKeyValueMap() {
      HiveAlwaysParseable(t.entries.dataType.fields[0].dataType);
      HiveAlwaysParseable(t.entries.dataType.fields[1].dataType);
    } else if t.Dictionary? {
      HiveAlwaysParseable(t.values);
    }
  }

  lemma {:induction false} HiveFieldsParseable(fields: seq<Field>)
    ensures ParseableFields(Hive, fields)
    decreases fields, 0
  {
    if fields != [] {
      HiveAlwaysParseable(fields[0].dataType);
      HiveFieldsParseable(fields[1..]);
    }
  }

  /** Glue's parser accepts its own printer's output exactly when no decimal is exposed, and then undoes it. */
  lemma {:induction false} GlueParseInvertsPrint(t: DataType)
    requires Print(Glue, t).Ok? && TameNames(Glue, t)
    ensures Parse(Glue, Print(Glue, t).value).Ok? <==> Parseable(Glue, t)
    ensures Parseable(Glue, t) ==> Parse(Glue, Print(Glue, t).value) == Ok(Normal(Glue, t))
  {
    ParseInvertsPrint(Glue, t);
  }

  /** A struct with a decimal field is printed by Glue and then refused by Glue, whatever its other fields. */
  lemma {:induction false} GlueRefusesDecimalField(before: seq<Field>, f: Field, after: seq<Field>)
    requires ExposedDecimal(Glue, f.dataType)
    requires var t := Struct(before + [f] + after); Print(Glue, t).Ok? && TameNames(Glue, t)
    ensures Parse(Glue, Print(Glue, Struct(before + [f] + after)).value) == Err(InvalidArgument)
  {
    ParseInvertsPrint(Glue, Struct(before + [f] + after));
    DecimalFieldExposed(before, f, after);
  }

  lemma {:induction false} DecimalFieldExposed(before: seq<Field>, f: Field, after: seq<Field>)
    requires ExposedDecimal(Glue, f.dataType)
    ensures !ParseableFields(Glue, before + [f] + after)
  {
    var fields := before + [f] + after;
    if before != [] {
      assert fields[1..] == before[1..] + [f] + after;
      DecimalFieldExposed(before[1..], f, after);
    }
  }

  // A second trip changes nothing

  lemma {:induction false} ShapeOfDenoted(dialect: Dialect, x: Shape)
    requires Tame(dialect, x) && PrintableDecimals(dialect, x)
    ensures ShapeOf(dialect, Denote(dialect, x)) == Ok(x)
    decreases x, 1
  {
    if x.Word? {
      ShapeOfKeyword(dialect, x.keyword);
      return;
    }
    if x.ArrayOf? {
      ShapeOfDenoted(dialect, x.element);
      ShapeOfList(dialect, Denote(dialect, x.element));
      return;
    }
    if x.MapOfShapes? {
      ShapeOfDenoted(dialect, x.key);
      ShapeOfDenoted(dialect, x.value);
      ShapeOfMap(dialect, Denote(dialect, x.key), Denote(dialect, x.value));
      return;
    }
    if x.StructOf? {
      MembersOfDenoted(dialect, x.members);
      ShapeOfStruct(dialect, DenoteMembers(dialect, x.members));
      return;
    }
    ShapeOfDecimal(dialect, x.precision, x.scale);
  }

  lemma {:induction false} ShapeOfStruct(dialect: Dialect, fields: seq<Field>)
    requires MembersOf(dialect, fields).Ok?
    ensures ShapeOf(dialect, Struct(fields)) == Ok(StructOf(MembersOf(dialect, fields).value))
  {
  }

  lemma ShapeOfDecimal(dialect: Dialect, precision: u8, scale: i8)
    requires PrintableDecimals(dialect, Decimal(precision, scale))
    ensures ShapeOf(dialect, Decimal128(precision, scale)) == Ok(Decimal(precision, scale))
  {
  }

  lemma ShapeOfKeyword(dialect: Dialect, k: Keyword)
    ensures ShapeOf(dialect, KeywordType(dialect, k)) == Ok(Word(k))
  {
  }

  lemma {:induction false} ShapeOfList(dialect: Dialect, t: DataType)
    requires ShapeOf(dialect, t).Ok?
    ensures ShapeOf(dialect, List(PlainField("item", t, true))) == Ok(ArrayOf(ShapeOf(dialect, t).value))
  {
  }

  lemma {:induction false} ShapeOfMap(dialect: Dialect, k: DataType, v: DataType)
    requires ShapeOf(dialect, k).Ok? && ShapeOf(dialect, v).Ok?
    ensures ShapeOf(dialect, MapOf(dialect, k, v))
            == Ok(MapOfShapes(ShapeOf(dialect, k).value, ShapeOf(dialect, v).value))
  {
    ShapeOfKeyValueMap(dialect, MapOf(dialect, k, v));
  }

  lemma {:induction false} ShapeOfKeyValueMap(dialect: Dialect, t: DataType)
    requires t.IsKeyValueMap()
    requires ShapeOf(dialect, t.KeyField().dataType).Ok? && ShapeOf(dialect, t.ValueField().dataType).Ok?
    ensures ShapeOf(dialect, t) == Ok(MapOfShapes(ShapeOf(dialect, t.KeyField().dataType).value,
                                                  ShapeOf(dialect, t.ValueField().dataType).value))
  {
  }

  lemma {:induction false} MembersOfDenoted(dialect: Dialect, members: seq<Member>)
    requires TameMembers(dialect, members) && PrintableMembers(dialect, members)
    ensures MembersOf(dialect, DenoteMembers(dialect, members)) == Ok(members)
    decreases members, 0
  {
    if members != [] {
      ShapeOfDenoted(dialect, members[0].shape);
      MembersOfDenoted(dialect, members[1..]);
      assert DenoteMembers(dialect, members)[1..] == DenoteMembers(dialect, members[1..]);
      assert [Member(members[0].name, members[0].shape)] + members[1..] == members;
    }
  }

  lemma {:induction false} LowerPrintable(dialect: Dialect, x: Shape)
    requires PrintableDecimals(dialect, x)
    ensures PrintableDecimals(dialect, LowerShape(x))
    decreases x, 1
  {
    match x
    case Word(_) | Decimal(_, _) =>
    case ArrayOf(element) => LowerPrintable(dialect, element);
    case MapOfShapes(key, value) =>
      LowerPrintable(dialect, key);
      LowerPrintable(dialect, value);
    case StructOf(members) => LowerMembersPrintable(dialect, members);
  }

  lemma {:induction false} LowerMembersPrintable(dialect: Dialect, members: seq<Member>)
    requires PrintableMembers(dialect, members)
    ensures PrintableMembers(dialect, LowerMembers(members))
    decreases members, 0
  {
    if members != [] {
      LowerPrintable(dialect, members[0].shape);
      LowerMembersPrintable(dialect, members[1..]);
      assert LowerMembers(members)[1..] == LowerMembers(members[1..]);
    }
  }

  /** The normal form prints as the same string in lower case, so a second trip is the identity. */
  lemma {:induction false} PrintNormal(dialect: Dialect, t: DataType)
    requires Print(dialect, t).Ok? && TameNames(dialect, t)
    ensures Print(dialect, Normal(dialect, t)) == Ok(ToLower(Print(dialect, t).value))
  {
    PrintIsRender(dialect, t);
    ShapeMirrors(dialect, t);
    var x := ShapeOf(dialect, t).value;
    LowerShapeTame(dialect, x);
    ShapeDenotes(dialect, t);
    LowerPrintable(dialect, x);
    ShapeOfDenoted(dialect, LowerShape(x));
    PrintIsRender(dialect, Normal(dialect, t));
    RenderLower(x);
  }
}
