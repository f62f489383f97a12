/**
Exactly which types survive the Metastore's type strings.

Tame names are enough for a type to read back. Here they are shown to be needed as well,
both for a type that is printed first and for a text that is read first.
*/
module HiveExact {
  import opened Arrow
  import opened Text
  import opened TopLevel
  import opened HiveSyntax
  import opened HiveShape
  import opened HiveShapeParse
  import opened HiveNames
  import opened HiveRoundTrip
  import opened HiveImage
  import opened SerialisationsAgree
  import SparkSchema
  import S = SparkRoundTrip

  // Names as a parser cuts them, on types

  predicate CutNames(t: DataType)
    decreases t, 1
  {
    if t.IsList() then CutNames(t.item.dataType)
    else if t.Struct? then CutFields(t.fields)
    else if t.IsKeyValueMap() then
      CutNames(t.entries.dataType.fields[0].dataType) && CutNames(t.entries.dataType.fields[1].dataType)
    else t.Dictionary? ==> CutNames(t.values)
  }

  predicate CutFields(fields: seq<Field>)
    decreases fields, 0
  {
    fields == [] || (CutName(fields[0].name) && CutNames(fields[0].dataType) && CutFields(fields[1..]))
  }

  lemma {:induction false} ShapeIsCut(t: DataType)
    requires ShapeOf(Hive, t).Ok? && CutNames(t)
    ensures CutShape(ShapeOf(Hive, t).value)
    decreases t, 1
  {
    if t.IsList() {
      ShapeIsCut(t.item.dataType);
    } else if t.Struct? {
      MembersAreCut(t.fields);
    } else if t.IsKeyValueMap() {
      ShapeIsCut(t.entries.dataType.fields[0].dataType);
      ShapeIsCut(t.entries.dataType.fields[1].dataType);
    } else if t.Dictionary? {
      ShapeIsCut(t.values);
    }
  }

  lemma {:induction false} MembersAreCut(fields: seq<Field>)
    requires MembersOf(Hive, fields).Ok? && CutFields(fields)
    ensures CutMembers(MembersOf(Hive, fields).value)
    decreases fields, 0
  {
    if fields != [] {
      ShapeIsCut(fields[0].dataType);
      MembersAreCut(fields[1..]);
      assert MembersOf(Hive, fields).value[1..] == MembersOf(Hive, fields[1..]).value;
    }
  }

  /** A printed type with such names is accepted only if its names are tame, and refused otherwise. */
  lemma AcceptedNamesTame(t: DataType)
    requires Print(Hive, t).Ok? && CutNames(t)
    ensures Parse(Hive, Print(Hive, t).value) ==
            if TameNames(Hive, t) then Ok(Normal(Hive, t)) else Err(InvalidArgument)
  {
    if TameNames(Hive, t) {
      HiveParseInvertsPrint(t);
    } else {
      PrintIsRender(Hive, t);
      ShapeIsCut(t);
      ShapeMirrors(Hive, t);
      var x := ShapeOf(Hive, t).value;
      UntameRefused(x);
      ParseIgnoresCase(Hive, Render(x));
    }
  }

  // Erasing keeps the names

  lemma {:induction false} ErasedImageIsCut(u: DataType)
    requires InImage(Hive, u)
    ensures CutNames(Erase(u))
    decreases u, 1
  {
    if u.List? {
      ErasedImageIsCut(u.item.dataType);
    } else if u.Struct? {
      ErasedFieldsAreCut(u.fields);
    } else if u.Map? {
      ErasedImageIsCut(u.entries.dataType.fields[0].dataType);
      ErasedImageIsCut(u.entries.dataType.fields[1].dataType);
      ErasedMap(u);
    }
  }

  lemma {:induction false} ErasedFieldsAreCut(fields: seq<Field>)
    requires FieldsInImage(Hive, fields)
    ensures CutFields(EraseFields(fields))
    decreases fields, 0
  {
    if fields != [] {
      ErasedImageIsCut(fields[0].dataType);
      ErasedFieldsAreCut(fields[1..]);
      assert EraseFields(fields)[1..] == EraseFields(fields[1..]);
    }
  }

  lemma {:induction false} ErasedMap(t: DataType)
    requires t.IsKeyValueMap()
    ensures Erase(t).IsKeyValueMap()
    ensures Erase(t).KeyField().dataType == Erase(t.KeyField().dataType)
    ensures Erase(t).ValueField().dataType == Erase(t.ValueField().dataType)
  {
    EraseTwo(t.entries.dataType.fields);
    assert Erase(t) == Map(EraseField(t.entries), t.sorted);
    assert Erase(t.entries.dataType) == Struct(EraseFields(t.entries.dataType.fields));
  }

  lemma {:induction false} ErasedNormalList(t: DataType)
    requires t.IsList()
    ensures var e := Erase(Normal(Hive, t)); e.List? && e.item.dataType == Erase(Normal(Hive, t.item.dataType))
  {
    var item := PlainField("item", Normal(Hive, t.item.dataType), true);
    assert Normal(Hive, t) == List(item);
    assert Erase(List(item)) == List(EraseField(item));
  }

  lemma {:induction false} ErasedNormalFields(fields: seq<Field>)
    requires fields != []
    ensures var erased := EraseFields(NormalFields(Hive, fields));
            && erased[0].name == ToLower(ToLower(fields[0].name))
            && erased[0].dataType == Erase(Normal(Hive, fields[0].dataType))
            && erased[1..] == EraseFields(NormalFields(Hive, fields[1..]))
  {
    var normal := NormalFields(Hive, fields);
    var first := PlainField(ToLower(fields[0].name), Normal(Hive, fields[0].dataType), true);
    assert normal[0] == first && normal[1..] == NormalFields(Hive, fields[1..]);
    assert EraseFields(normal) == [EraseField(first)] + EraseFields(normal[1..]);
  }

  lemma {:induction false} CutIfNormalCut(t: DataType)
    requires ShapeOf(Hive, t).Ok? && CutNames(Erase(Normal(Hive, t)))
    ensures CutNames(t)
    decreases t, 1
  {
    if t.IsList() {
      ErasedNormalList(t);
      CutIfNormalCut(t.item.dataType);
    } else if t.Struct? {
      CutFieldsIfNormalCut(t.fields);
    } else if t.IsKeyValueMap() {
      NormalOfMap(Hive, t);
      ErasedMap(Normal(Hive, t));
      CutIfNormalCut(t.entries.dataType.fields[0].dataType);
      CutIfNormalCut(t.entries.dataType.fields[1].dataType);
    } else if t.Dictionary? {
      CutIfNormalCut(t.values);
    }
  }

  lemma {:induction false} CutFieldsIfNormalCut(fields: seq<Field>)
    requires MembersOf(Hive, fields).Ok? && CutFields(EraseFields(NormalFields(Hive, fields)))
    ensures CutFields(fields)
    decreases fields, 0
  {
    if fields != [] {
      ErasedNormalFields(fields);
      LowerIdempotent(fields[0].name);
      LowerCutName(fields[0].name);
      CutIfNormalCut(fields[0].dataType);
      CutFieldsIfNormalCut(fields[1..]);
    }
  }

  // Types that are printed first

  /** If what comes back agrees with the normal form up to erasure, the names were tame. */
  lemma AgreementNeedsTame(t: DataType)
    requires Print(Hive, t).Ok?
    requires var r := Parse(Hive, Print(Hive, t).value); r.Ok? && Erase(r.value) == Erase(Normal(Hive, t))
    ensures TameNames(Hive, t)
  {
    var text := Print(Hive, t).value;
    ParseInImage(Hive, text);
    ErasedImageIsCut(Parse(Hive, text).value);
    PrintIsRender(Hive, t);
    CutIfNormalCut(t);
    AcceptedNamesTame(t);
  }

  /** A type the Metastore printer accepts reads back as its normal form if and only if its names are tame. */
  lemma HiveReadsBackExactly(t: DataType)
    requires Print(Hive, t).Ok?
    ensures Parse(Hive, Print(Hive, t).value) == Ok(Normal(Hive, t)) <==> TameNames(Hive, t)
  {
    if TameNames(Hive, t) {
      HiveParseInvertsPrint(t);
    } else if Parse(Hive, Print(Hive, t).value) == Ok(Normal(Hive, t)) {
      AgreementNeedsTame(t);
    }
  }

  /**
  Reading a type back from its Hive type string and from its Spark schema JSON. The JSON
  always reads back; the Hive string gives the same type, up to what it cannot say, if and
  only if the names are tame.
  */
  lemma BothReadBackTheSame(t: DataType)
    requires Print(Hive, t).Ok? && SparkSchema.ToJson(t).Ok?
    ensures var fromHive := Parse(Hive, Print(Hive, t).value);
            var fromJson := SparkSchema.FromJson(SparkSchema.ToJson(t).value);
            && fromJson.Ok?
            && (fromHive.Ok? && Erase(fromHive.value) == Erase(fromJson.value) <==> TameNames(Hive, t))
  {
    S.FromJsonInvertsToJson(t);
    S.ToJsonIsEncode(t);
    NormalsAgree(t);
    var fromHive := Parse(Hive, Print(Hive, t).value);
    if TameNames(Hive, t) {
      HiveParseInvertsPrint(t);
    } else if fromHive.Ok? && Erase(fromHive.value) == Erase(Normal(Hive, t)) {
      AgreementNeedsTame(t);
    }
  }

  // Texts that are read first

  /** Every decimal is within what the Metastore printer accepts. */
  predicate DecimalsPrint(t: DataType)
    decreases t, 1
  {
    if t.List? then DecimalsPrint(t.item.dataType)
    else if t.Struct? then FieldDecimalsPrint(t.fields)
    else if t.IsKeyValueMap() then
      DecimalsPrint(t.entries.dataType.fields[0].dataType) && DecimalsPrint(t.entries.dataType.fields[1].dataType)
    else t.Decimal128? ==> t.precision <= 38 && 0 <= t.scale <= t.precision
  }

  predicate FieldDecimalsPrint(fields: seq<Field>)
    decreases fields, 0
  {
    fields == [] || (DecimalsPrint(fields[0].dataType) && FieldDecimalsPrint(fields[1..]))
  }

  lemma LeafPrints(dialect: Dialect, t: DataType)
    requires LeafInImage(dialect, t)
    ensures Print(dialect, t).Ok? <==> dialect == Glue || DecimalsPrint(t)
  {
    if t.Decimal128? {
      return;
    }
    LeafHasKeyword(dialect, t);
  }

  lemma LeafHasKeyword(dialect: Dialect, t: DataType)
    requires LeafInImage(dialect, t) && !t.Decimal128?
    ensures LeafKeyword(t).Some? && !t.IsDecimal() && !t.IsList() && !t.Struct? && !t.Map? && !t.Dictionary?
  {
    if t.IsInteger() {
      return;
    }
  }

  /** A parsed type can be printed if and only if, for the Metastore, its decimals are within range. */
  lemma {:induction false} ImagePrints(dialect: Dialect, t: DataType)
    requires InImage(dialect, t)
    ensures Print(dialect, t).Ok? <==> dialect == Glue || DecimalsPrint(t)
    decreases t, 1
  {
    if t.List? {
      ImagePrints(dialect, t.item.dataType);
    } else if t.Struct? {
      FieldsPrint(dialect, t.fields);
    } else if t.Map? {
      ImagePrints(dialect, t.entries.dataType.fields[0].dataType);
      ImagePrints(dialect, t.entries.dataType.fields[1].dataType);
    } else {
      LeafPrints(dialect, t);
    }
  }

  lemma {:induction false} FieldsPrint(dialect: Dialect, fields: seq<Field>)
    requires FieldsInImage(dialect, fields)
    ensures PrintFields(dialect, fields).Ok? <==> dialect == Glue || FieldDecimalsPrint(fields)
    decreases fields, 0
  {
    if fields != [] {
      ImagePrints(dialect, fields[0].dataType);
      FieldsPrint(dialect, fields[1..]);
    }
  }

  lemma {:induction false} ImageIsCut(t: DataType)
    requires InImage(Hive, t)
    ensures CutNames(t)
    decreases t, 1
  {
    if t.List? {
      ImageIsCut(t.item.dataType);
    } else if t.Struct? {
      FieldsAreCut(t.fields);
    } else if t.Map? {
      ImageIsCut(t.entries.dataType.fields[0].dataType);
      ImageIsCut(t.entries.dataType.fields[1].dataType);
    }
  }

  lemma {:induction false} FieldsAreCut(fields: seq<Field>)
    requires FieldsInImage(Hive, fields)
    ensures CutFields(fields)
    decreases fields, 0
  {
    if fields != [] {
      ImageIsCut(fields[0].dataType);
      FieldsAreCut(fields[1..]);
    }
  }

  /**
  A text the Metastore parser accepts, its type written and read again. The type can be
  written if and only if its decimals are within range. What was written reads as the normal
  form if the names are tame and is refused otherwise. So the type comes back as it was first
  read if and only if its decimals are within range, its names are tame, and no timestamp
  lacks a zone.
  */
  lemma {:induction false} HiveReadWriteRead(text: string)
    requires Parse(Hive, text).Ok?
    ensures var t := Parse(Hive, text).value;
            && (Print(Hive, t).Ok? <==> DecimalsPrint(t))
            && (Print(Hive, t).Ok? ==>
                  Parse(Hive, Print(Hive, t).value) ==
                  if TameNames(Hive, t) then Ok(Normal(Hive, t)) else Err(InvalidArgument))
            && (Print(Hive, t).Ok? && Parse(Hive, Print(Hive, t).value) == Ok(t) <==>
                DecimalsPrint(t) && TameNames(Hive, t) && !HasLocal(t))
  {
    var t := Parse(Hive, text).value;
    ParseInImage(Hive, text);
    ImagePrints(Hive, t);
    ImageIsCut(t);
    ImageStable(Hive, t);
    if Print(Hive, t).Ok? {
      AcceptedNamesTame(t);
    }
  }

  // Texts that do not come back

  /** A decimal wider than 38 digits is read, and cannot be written. */
  lemma WideDecimalLost(precision: u8, scale: i8)
    requires precision > 38
    ensures Parse(Hive, DecimalText(precision, scale)) == Ok(Decimal128(precision, scale))
    ensures Print(Hive, Decimal128(precision, scale)) == Err(InvalidArgument)
  {
    ParseInvertsRender(Hive, Decimal(precision, scale));
  }

  lemma OpenNameText(name: string)
    requires Absorb(true, TOP, name) == Some(Depth(0, 1))
    ensures Neutral(true, name + ":" + "char(5))")
  {
    var one, two := Depth(0, 1), Depth(0, 2);
    OneStep(one, ":", one);
    Through(TOP, name, one, ":", one);
    PlainNeutral(true, one, "char");
    OneStep(one, "(", two);
    Through(one, "char", one, "(", two);
    OneStep(two, "5", two);
    Through(one, "char" + "(", two, "5", two);
    OneStep(two, ")", one);
    Through(one, "char" + "(" + "5", two, ")", one);
    OneStep(one, ")", TOP);
    Through(one, "char" + "(" + "5" + ")", one, ")", TOP);
    assert "char" + "(" + "5" + ")" + ")" == "char(5))";
    Through(TOP, name + ":", one, "char(5))", TOP);
  }

  /** A name that leaves a parenthesis open is read when a character type closes it, and is then written in vain. */
  lemma OpenNameLost(name: string)
    requires CutName(name) && Lower(name) && Absorb(true, TOP, name) == Some(Depth(0, 1))
    ensures var t := Struct([PlainField(name, Utf8, true)]);
            && Parse(Hive, "struct<" + (name + ":" + "char(5))") + ">") == Ok(t)
            && Print(Hive, t).Ok? && Parse(Hive, Print(Hive, t).value) == Err(InvalidArgument)
  {
    var t := Struct([PlainField(name, Utf8, true)]);
    var text := "struct<" + (name + ":" + "char(5))") + ">";
    OpenNameRead(name);
    HiveReadWriteRead(text);
    OpenNameUntame(name, t);
  }

  lemma OpenNameUntame(name: string, t: DataType)
    requires t == Struct([PlainField(name, Utf8, true)]) && !Neutral(true, name)
    ensures !TameNames(Hive, t) && DecimalsPrint(t)
  {
    assert t.fields[1..] == [];
    assert TameNames(Hive, t) == TameFields(Hive, t.fields);
    assert DecimalsPrint(t) == FieldDecimalsPrint(t.fields);
  }

  /** Two texts the Metastore parser accepts whose types do not come back. */
  lemma LostDecimal()
    ensures Parse(Hive, "decimal(50,2)") == Ok(Decimal128(50, 2))
    ensures Print(Hive, Decimal128(50, 2)) == Err(InvalidArgument)
  {
    assert NatToString(50) == NatToString(5) + ['0'] == "50";
    assert DecimalText(50, 2) == "decimal(50,2)";
    WideDecimalLost(50, 2);
  }

  lemma LostName()
    ensures var t := Struct([PlainField("a(b", Utf8, true)]);
            && Parse(Hive, "struct<a(b:char(5))>") == Ok(t)
            && Print(Hive, t).Ok? && Parse(Hive, Print(Hive, t).value) == Err(InvalidArgument)
  {
    OpenParenthesis();
    OpenNameLost("a(b");
    OpenParenthesisText();
  }

  lemma OpenParenthesisText()
    ensures "struct<" + ("a(b" + ":" + "char(5))") + ">" == "struct<a(b:char(5))>"
  {
  }

  lemma OpenParenthesis()
    ensures CutName("a(b") && Lower("a(b") && Absorb(true, TOP, "a(b") == Some(Depth(0, 1))
  {
    PlainNeutral(true, TOP, "a");
    OneStep(TOP, "(", Depth(0, 1));
    Through(TOP, "a", TOP, "(", Depth(0, 1));
    PlainNeutral(true, Depth(0, 1), "b");
    Through(TOP, "a" + "(", Depth(0, 1), "b", Depth(0, 1));
    assert "a" + "(" + "b" == "a(b";
  }

  lemma OpenNameRead(name: string)
    requires CutName(name) && Lower(name) && Absorb(true, TOP, name) == Some(Depth(0, 1))
    ensures Parse(Hive, "struct<" + (name + ":" + "char(5))") + ">") == Ok(Struct([PlainField(name, Utf8, true)]))
  {
    var inner := name + ":" + "char(5))";
    var text := "struct<" + inner + ">";
    assert Trimmed(text) by {
      EnclosedShape("struct<", inner);
    }
    TrimTrimmed(text);
    assert Lower(text) by {
      LowerPair(name, ":", "char(5))");
      LowerEnclosed("struct<", inner);
    }
    ParseEnclosed(Hive, "struct<", inner);
    OnePiece(name);
    OneField(name, |inner|);
  }

  lemma OnePiece(name: string)
    requires CutName(name) && Absorb(true, TOP, name) == Some(Depth(0, 1))
    ensures var inner := name + ":" + "char(5))"; Pieces(inner) == Ok([inner])
  {
    var inner := name + ":" + "char(5))";
    OpenNameText(name);
    SplitInvertsJoin([inner]);
    assert inner[|inner| - 1] == ')' && inner[0] == if name == [] then ':' else name[0];
    TrimTrimmed(inner);
    assert TrimAll([inner]) == [inner];
  }

  lemma OneField(name: string, limit: nat)
    requires ':' !in name && |name + ":" + "char(5))"| <= limit
    ensures ParseFields(Hive, [name + ":" + "char(5))"], limit) == Ok([PlainField(name, Utf8, true)])
  {
    var part := name + ":" + "char(5))";
    SplitOnceConcat(name, ':', "char(5))");
    assert part == name + [':'] + "char(5))";
    CharacterType();
    assert [part][1..] == [];
    assert [PlainField(name, Utf8, true)] + [] == [PlainField(name, Utf8, true)];
  }

  lemma CharacterType()
    ensures Parse(Hive, "char(5))") == Ok(Utf8)
  {
    var s := "char(5))";
    assert Trimmed(s) && ToLower(s) == s;
    TrimTrimmed(s);
    assert s[0] == 'c';
    assert StartsWith(s, "char(");
  }
}
