/**
The parsers of type strings on arbitrary texts: which types they can answer at all, and
whether a text that was accepted survives being written and read again.
*/
module HiveImage {
  import opened Arrow
  import opened Text
  import opened TopLevel
  import opened HiveSyntax
  import opened HiveNames
  import opened HiveRoundTrip

  // The types a parser can answer

  predicate LeafInImage(dialect: Dialect, t: DataType) {
    || t.Null? || t.Boolean? || t.Int8? || t.Int16? || t.Int32? || t.Int64? || t.Float32? || t.Float64?
    || t.Decimal128? || t.Utf8? || t.Binary? || t.Date32?
    || t == LOCAL_MICROS || (dialect == Hive && t == UTC_MICROS)
  }

  predicate IsItem(f: Field) {
    f == PlainField("item", f.dataType, true)
  }

  predicate IsMapOf(dialect: Dialect, t: DataType) {
    t.IsKeyValueMap() && t == MapOf(dialect, t.KeyField().dataType, t.ValueField().dataType)
  }

  /** A name as the parser cuts it out of a lower-case text. */
  predicate ParsedName(dialect: Dialect, name: string) {
    Lower(name) && if dialect == Hive then CutName(name) else ':' !in name && Trimmed(name)
  }

  /** Plain nullable children under fixed names, parsed field names, and the leaves above. */
  predicate InImage(dialect: Dialect, t: DataType)
    decreases t, 1
  {
    if t.List? then IsItem(t.item) && InImage(dialect, t.item.dataType)
    else if t.Struct? then FieldsInImage(dialect, t.fields)
    else if t.Map? then
      && IsMapOf(dialect, t)
      && InImage(dialect, t.entries.dataType.fields[0].dataType)
      && InImage(dialect, t.entries.dataType.fields[1].dataType)
    else LeafInImage(dialect, t)
  }

  predicate FieldsInImage(dialect: Dialect, fields: seq<Field>)
    decreases fields, 0
  {
    fields == [] ||
    (&& fields[0] == PlainField(fields[0].name, fields[0].dataType, true)
     && ParsedName(dialect, fields[0].name)
     && InImage(dialect, fields[0].dataType)
     && FieldsInImage(dialect, fields[1..]))
  }

  // Lower-case texts and their pieces

  predicate Lower(s: string) {
    ToLower(s) == s
  }

  predicate AllLower(parts: seq<string>) {
    forall i :: 0 <= i < |parts| ==> Lower(parts[i])
  }

  /** A text the field parser is given: lower case, and for the Metastore a trimmed balanced piece. */
  predicate FieldText(dialect: Dialect, part: string) {
    Lower(part) && (dialect == Hive ==> Trimmed(part) && Neutral(true, part))
  }

  predicate AllFieldTexts(dialect: Dialect, parts: seq<string>) {
    forall i :: 0 <= i < |parts| ==> FieldText(dialect, parts[i])
  }

  lemma {:induction false} TrimStartAbsorb(d: Depth, s: string)
    ensures Absorb(true, d, TrimStart(s)) == Absorb(true, d, s)
    decreases |s|
  {
    if s != [] && IsWhitespace(s[0]) {
      TrimStartAbsorb(d, s[1..]);
    }
  }

  lemma {:induction false} TrimEndAbsorb(d: Depth, s: string)
    ensures Absorb(true, d, TrimEnd(s)) == Absorb(true, d, s)
    decreases |s|
  {
    if s != [] && IsWhitespace(s[|s| - 1]) {
      var front, last := s[..|s| - 1], s[|s| - 1];
      TrimEndAbsorb(d, front);
      assert s == front + [last];
      AbsorbConcat(true, d, front, [last]);
      if Absorb(true, d, front).Some? {
        AbsorbNext(true, d, front, last);
      }
    }
  }

  /** Trimming a balanced piece leaves it balanced. */
  lemma TrimNeutral(s: string)
    requires Neutral(true, s)
    ensures Neutral(true, Trim(s))
  {
    TrimStartAbsorb(TOP, s);
    TrimEndAbsorb(TOP, TrimStart(s));
  }

  lemma LowerSlice(s: string, i: nat, j: nat)
    requires Lower(s) && i <= j <= |s|
    ensures Lower(s[i..j])
  {
    forall k | i <= k < j ensures LowerChar(s[k]) == s[k] {
      assert ToLower(s)[k] == s[k];
    }
  }

  lemma LowerAppend(s: string, c: char)
    requires Lower(s) && LowerChar(c) == c
    ensures Lower(s + [c])
  {
    LowerConcat(s, [c]);
  }

  lemma LowerTrimmed(s: string)
    requires Lower(s)
    ensures Lower(Trim(s))
  {
    LowerTrim(s);
  }

  lemma LowerHead(s: string)
    requires Lower(s) && s != []
    ensures LowerChar(s[0]) == s[0] && Lower(s[1..])
  {
    assert ToLower(s)[0] == s[0];
    LowerSlice(s, 1, |s|);
  }

  lemma {:induction false} SplitLower(rest: string, current: string, d: Depth)
    requires Lower(rest) && Lower(current)
    ensures SplitFrom(rest, current, d).Ok? ==> AllLower(SplitFrom(rest, current, d).value)
    decreases |rest|
  {
    if rest != [] {
      LowerHead(rest);
      if rest[0] == ',' && d == TOP {
        SplitLower(rest[1..], [], TOP);
      } else if TopLevel.Step(true, d, rest[0]).Some? {
        LowerAppend(current, rest[0]);
        SplitLower(rest[1..], current + [rest[0]], TopLevel.Step(true, d, rest[0]).value);
      }
    }
  }

  lemma {:induction false} PiecesAreFieldTexts(input: string)
    requires Lower(input)
    ensures Pieces(input).Ok? ==> AllFieldTexts(Hive, Pieces(input).value)
  {
    SplitLower(input, [], TOP);
    if RawPieces(input).Ok? {
      var raw := RawPieces(input).value;
      var parts := SplitFromSound(input, [], TOP);
      forall i | 0 <= i < |raw| ensures FieldText(Hive, Trim(raw[i])) {
        assert raw[i] == parts[i];
        LowerTrimmed(raw[i]);
        TrimIsTrimmed(raw[i]);
        TrimNeutral(raw[i]);
      }
    }
  }

  lemma {:induction false} AnglePiecesLower(rest: string, current: string, depth: int)
    requires Lower(rest) && Lower(current)
    ensures AllLower(AnglePieces(rest, current, depth))
    decreases |rest|
  {
    LowerTrimmed(current);
    if rest != [] {
      LowerHead(rest);
      if rest[0] == ',' && depth == 0 {
        AnglePiecesLower(rest[1..], [], 0);
      } else {
        LowerAppend(current, rest[0]);
        AnglePiecesLower(rest[1..], current + [rest[0]], AngleStep(depth, rest[0]));
      }
    }
  }

  lemma FieldTextsOf(dialect: Dialect, inner: string)
    requires Lower(inner)
    ensures FieldTexts(dialect, inner).Ok? ==> AllFieldTexts(dialect, FieldTexts(dialect, inner).value)
  {
    if dialect == Hive {
      PiecesAreFieldTexts(inner);
    } else {
      AnglePiecesLower(inner, [], 0);
    }
  }

  // Every accepted text

  ghost predicate Answers(dialect: Dialect, r: Result<DataType>) {
    r.Ok? ==> InImage(dialect, r.value)
  }

  lemma KeywordInImage(dialect: Dialect, s: string)
    ensures Answers(dialect, ParseKeyword(dialect, s))
  {
  }

  lemma DecimalInImage(dialect: Dialect, s: string)
    ensures Answers(dialect, ParseDecimal(dialect, s))
  {
    var r := ParseDecimal(dialect, s);
    assert r.Ok? ==> r.value.Decimal128?;
  }

  lemma ListInImage(dialect: Dialect, e: DataType)
    requires InImage(dialect, e)
    ensures InImage(dialect, List(PlainField("item", e, true)))
  {
  }

  lemma MapInImage(dialect: Dialect, k: DataType, v: DataType)
    requires InImage(dialect, k) && InImage(dialect, v)
    ensures InImage(dialect, MapOf(dialect, k, v))
  {
    var t := MapOf(dialect, k, v);
    assert t.entries.dataType.fields[0].dataType == k && t.entries.dataType.fields[1].dataType == v;
  }

  /** Whatever the text, the answer is a type of the image. */
  lemma {:induction false} ParseInImage(dialect: Dialect, text: string)
    ensures Answers(dialect, Parse(dialect, text))
    decreases |text|, 2
  {
    LowerIdempotent(Trim(text));
    LoweredInImage(dialect, ToLower(Trim(text)));
  }

  lemma {:induction false} LoweredInImage(dialect: Dialect, s: string)
    requires Lower(s)
    ensures Answers(dialect, ParseLowered(dialect, s))
    decreases |s|, 1
  {
    if StartsWith(s, "decimal") {
      DecimalInImage(dialect, s);
    } else if StartsWith(s, "array<") {
      ArrayInImage(dialect, s);
    } else if StartsWith(s, "map<") {
      MapTextInImage(dialect, s);
    } else if StartsWith(s, "struct<") {
      StructInImage(dialect, s);
    } else {
      KeywordInImage(dialect, s);
    }
  }

  lemma {:induction false} ArrayInImage(dialect: Dialect, s: string)
    requires StartsWith(s, "array<") && !StartsWith(s, "decimal")
    ensures Answers(dialect, ParseLowered(dialect, s))
    decreases |s|, 0
  {
    var inner := Strip(s, "array<", '>');
    if inner.Some? {
      ParseInImage(dialect, inner.value);
      if Parse(dialect, inner.value).Ok? {
        ListInImage(dialect, Parse(dialect, inner.value).value);
      }
    }
  }

  lemma {:induction false} MapTextInImage(dialect: Dialect, s: string)
    requires StartsWith(s, "map<") && !StartsWith(s, "decimal") && !StartsWith(s, "array<")
    ensures Answers(dialect, ParseLowered(dialect, s))
    decreases |s|, 0
  {
    var inner := Strip(s, "map<", '>');
    if inner.Some? && KeyValueTexts(dialect, inner.value).Ok? {
      var kv := KeyValueTexts(dialect, inner.value).value;
      ParseInImage(dialect, kv.0);
      ParseInImage(dialect, kv.1);
      if Parse(dialect, kv.0).Ok? && Parse(dialect, kv.1).Ok? {
        MapInImage(dialect, Parse(dialect, kv.0).value, Parse(dialect, kv.1).value);
      }
    }
  }

  lemma {:induction false} StructInImage(dialect: Dialect, s: string)
    requires Lower(s) && StartsWith(s, "struct<")
    requires !StartsWith(s, "decimal") && !StartsWith(s, "array<") && !StartsWith(s, "map<")
    ensures Answers(dialect, ParseLowered(dialect, s))
    decreases |s|, 0
  {
    var inner := Strip(s, "struct<", '>');
    if inner.Some? {
      LowerSlice(s, 7, |s| - 1);
      FieldTextsOf(dialect, inner.value);
      if FieldTexts(dialect, inner.value).Ok? {
        FieldsAnswered(dialect, FieldTexts(dialect, inner.value).value, |inner.value|);
      }
    }
  }

  lemma {:induction false} FieldsAnswered(dialect: Dialect, parts: seq<string>, limit: nat)
    requires AllFieldTexts(dialect, parts) && forall i :: 0 <= i < |parts| ==> |parts[i]| <= limit
    ensures var r := ParseFields(dialect, parts, limit); r.Ok? ==> FieldsInImage(dialect, r.value)
    decreases limit, 3, |parts|
  {
    if parts != [] {
      FieldAnswered(dialect, parts[0]);
      FieldsAnswered(dialect, parts[1..], limit);
      var r := ParseFields(dialect, parts, limit);
      if r.Ok? {
        assert r.value[1..] == ParseFields(dialect, parts[1..], limit).value;
      }
    }
  }

  lemma NameIsParsed(dialect: Dialect, part: string, name: string, rest: string)
    requires FieldText(dialect, part) && part == name + [':'] + rest && ':' !in name
    ensures ParsedName(dialect, if dialect == Hive then name else Trim(name))
  {
    assert part[0..|name|] == name;
    LowerSlice(part, 0, |name|);
    if dialect == Hive {
      assert part == name + ([':'] + rest);
      AbsorbConcat(true, TOP, name, [':'] + rest);
      assert name != [] ==> part[0] == name[0];
    } else {
      LowerTrimmed(name);
      TrimIsTrimmed(name);
      if ':' in Trim(name) {
        TrimWithin(name, ':');
      }
    }
  }

  lemma {:induction false} FieldAnswered(dialect: Dialect, part: string)
    requires FieldText(dialect, part)
    ensures var r := ParseField(dialect, part);
            r.Ok? ==> r.value == PlainField(r.value.name, r.value.dataType, true)
                      && ParsedName(dialect, r.value.name)
                      && InImage(dialect, r.value.dataType)
    decreases |part|, 2
  {
    var p := SplitOnce(part, ':');
    if p.Some? {
      assert |p.value.0 + [':'] + p.value.1| == |part|;
      NameIsParsed(dialect, part, p.value.0, p.value.1);
      ParseInImage(dialect, p.value.1);
    }
  }

  // Reading, writing and reading again

  /** Somewhere inside is a timestamp without a zone. */
  predicate HasLocal(t: DataType)
    decreases t, 1
  {
    if t.List? then HasLocal(t.item.dataType)
    else if t.Struct? then FieldsHaveLocal(t.fields)
    else if t.Map? then HasLocal(t.entries.dataType)
    else t == LOCAL_MICROS
  }

  predicate FieldsHaveLocal(fields: seq<Field>)
    decreases fields, 0
  {
    fields != [] && (HasLocal(fields[0].dataType) || FieldsHaveLocal(fields[1..]))
  }

  predicate Stable(dialect: Dialect, t: DataType) {
    dialect == Glue || !HasLocal(t)
  }

  lemma LeafStable(dialect: Dialect, t: DataType)
    requires LeafInImage(dialect, t)
    ensures Normal(dialect, t) == t <==> Stable(dialect, t)
  {
    if t.IsDecimal() {
      return;
    }
    NormalOfLeaf(dialect, t);
  }

  lemma NormalOfLeaf(dialect: Dialect, t: DataType)
    requires LeafInImage(dialect, t) && !t.IsDecimal()
    ensures Normal(dialect, t) == if t == LOCAL_MICROS && dialect == Hive then UTC_MICROS else t
  {
    NormalIsLeafNormal(dialect, t);
    if t.Timestamp? {
      return;
    }
    assert LeafNormal(dialect, t) == t;
  }

  lemma NormalIsLeafNormal(dialect: Dialect, t: DataType)
    requires !t.IsDecimal() && !t.IsList() && !t.Struct? && !t.Map? && !t.Dictionary?
    ensures Normal(dialect, t) == LeafNormal(dialect, t)
  {
  }

  lemma {:induction false} ListStable(dialect: Dialect, t: DataType)
    requires t.List? && InImage(dialect, t)
    requires Normal(dialect, t.item.dataType) == t.item.dataType <==> Stable(dialect, t.item.dataType)
    ensures Normal(dialect, t) == t <==> Stable(dialect, t)
  {
    var e := t.item.dataType;
    assert Normal(dialect, t) == List(PlainField("item", Normal(dialect, e), true));
    assert t == List(PlainField("item", e, true));
  }

  lemma {:induction false} MapStable(dialect: Dialect, k: DataType, v: DataType)
    requires Normal(dialect, k) == k <==> Stable(dialect, k)
    requires Normal(dialect, v) == v <==> Stable(dialect, v)
    ensures var t := MapOf(dialect, k, v); Normal(dialect, t) == t <==> Stable(dialect, t)
  {
    var t := MapOf(dialect, k, v);
    NormalOfMap(dialect, t);
    assert HasLocal(t) <==> HasLocal(k) || HasLocal(v) by {
      EntriesHaveLocal(t.entries.dataType.fields);
      assert HasLocal(t) == HasLocal(t.entries.dataType) == FieldsHaveLocal(t.entries.dataType.fields);
    }
    MapOfInjective(dialect, k, v, Normal(dialect, k), Normal(dialect, v));
  }

  lemma {:induction false} NormalOfMap(dialect: Dialect, t: DataType)
    requires t.IsKeyValueMap()
    ensures Normal(dialect, t)
            == MapOf(dialect, Normal(dialect, t.KeyField().dataType), Normal(dialect, t.ValueField().dataType))
  {
  }

  lemma {:induction false} EntriesHaveLocal(fields: seq<Field>)
    requires |fields| == 2
    ensures FieldsHaveLocal(fields) <==> HasLocal(fields[0].dataType) || HasLocal(fields[1].dataType)
  {
    assert FieldsHaveLocal(fields[1..]) <==> HasLocal(fields[1].dataType) || FieldsHaveLocal(fields[1..][1..]);
  }

  lemma MapOfInjective(dialect: Dialect, k: DataType, v: DataType, k': DataType, v': DataType)
    ensures MapOf(dialect, k, v) == MapOf(dialect, k', v') <==> k == k' && v == v'
  {
    var t, t' := MapOf(dialect, k, v), MapOf(dialect, k', v');
    assert t.KeyField().dataType == k && t'.KeyField().dataType == k';
    assert t.ValueField().dataType == v && t'.ValueField().dataType == v';
  }

  lemma {:induction false} StructStable(dialect: Dialect, fields: seq<Field>)
    requires NormalFields(dialect, fields) == fields <==> dialect == Glue || !FieldsHaveLocal(fields)
    ensures Normal(dialect, Struct(fields)) == Struct(fields) <==> Stable(dialect, Struct(fields))
  {
    assert Normal(dialect, Struct(fields)) == Struct(NormalFields(dialect, fields));
    assert HasLocal(Struct(fields)) == FieldsHaveLocal(fields);
  }

  /** A type of the image is its own normal form, except that Hive gives zone-less timestamps a zone. */
  lemma {:induction false} ImageStable(dialect: Dialect, t: DataType)
    requires InImage(dialect, t)
    ensures Normal(dialect, t) == t <==> Stable(dialect, t)
    decreases t, 1
  {
    if t.List? {
      ImageStable(dialect, t.item.dataType);
      ListStable(dialect, t);
    } else if t.Struct? {
      FieldsStable(dialect, t.fields);
      StructStable(dialect, t.fields);
    } else if t.Map? {
      ImageStable(dialect, t.entries.dataType.fields[0].dataType);
      ImageStable(dialect, t.entries.dataType.fields[1].dataType);
      MapStable(dialect, t.KeyField().dataType, t.ValueField().dataType);
    } else {
      LeafStable(dialect, t);
    }
  }

  lemma {:induction false} FieldsStable(dialect: Dialect, fields: seq<Field>)
    requires FieldsInImage(dialect, fields)
    ensures NormalFields(dialect, fields) == fields <==> dialect == Glue || !FieldsHaveLocal(fields)
    decreases fields, 0
  {
    if fields != [] {
      ImageStable(dialect, fields[0].dataType);
      FieldsStable(dialect, fields[1..]);
      var normal := NormalFields(dialect, fields);
      assert normal[0] == PlainField(ToLower(fields[0].name), Normal(dialect, fields[0].dataType), true);
      assert normal[1..] == NormalFields(dialect, fields[1..]);
      assert fields == [fields[0]] + fields[1..];
      assert normal == [normal[0]] + normal[1..];
    }
  }
}
