/** Parsing the textual form of a Hive type shape. */
module HiveShapeParse {
  import opened Arrow
  import opened Text
  import opened TopLevel
  import opened HiveSyntax
  import opened HiveShape

  /** The outcome of parsing a rendered shape with lower-case names. */
  function Outcome(dialect: Dialect, x: Shape): Result<DataType>
    requires Tame(dialect, x)
  {
    if Recoverable(dialect, x) then Ok(Denote(dialect, x)) else Err(InvalidArgument)
  }

  lemma {:induction false} ParseRendered(dialect: Dialect, x: Shape)
    requires LowerCase(x)
    ensures Parse(dialect, Render(x)) == ParseLowered(dialect, Render(x))
  {
    RenderTrimmed(x);
    TrimTrimmed(Render(x));
    RenderLower(x);
    LowerCaseFixed(x);
  }

  lemma ParseKeywordText(dialect: Dialect, k: Keyword)
    ensures ParseKeyword(dialect, KeywordText(k)) == Ok(KeywordType(dialect, k))
  {
  }

  lemma ParseWord(dialect: Dialect, k: Keyword)
    ensures ParseLowered(dialect, KeywordText(k)) == Ok(KeywordType(dialect, k))
  {
    var w := KeywordText(k);
    KeywordWord(k);
    NotWordPrefix(w, "array<");
    NotWordPrefix(w, "map<");
    NotWordPrefix(w, "struct<");
    NotWordPrefix(w, "char(");
    NotWordPrefix(w, "varchar(");
    ParseKeywordText(dialect, k);
  }

  lemma NotWordPrefix(w: string, p: string)
    requires LowerWord(w)
    requires p != [] && (p[|p| - 1] == '(' || p[|p| - 1] == '<')
    ensures !StartsWith(w, p)
  {
  }

  lemma NumberTrimmed(n: int)
    ensures Trimmed(IntToString(n)) && ',' !in IntToString(n)
  {
    IntToStringChars(n);
  }

  lemma ParseDecimalText(dialect: Dialect, precision: u8, scale: i8)
    ensures ParseLowered(dialect, DecimalText(precision, scale)) == Ok(Decimal128(precision, scale))
  {
    var p, s := NatToString(precision), IntToString(scale);
    var inner := p + "," + s;
    var text := DecimalText(precision, scale);
    StripEnclosed("decimal(", inner, ')');
    assert StartsWith(text, "decimal") && text != "decimal";
    NumberTrimmed(precision);
    NumberTrimmed(scale);
    SplitOnceConcat(p, ',', s);
    assert SplitOn(inner, ',') == [p, s];
    TrimTrimmed(p);
    TrimTrimmed(s);
    UnsignedRoundTrip(precision, 255);
    I8RoundTrip(scale);
  }

  lemma ParsePrintedDecimal(dialect: Dialect, precision: u8, scale: i8)
    ensures Parse(dialect, DecimalText(precision, scale)) == Ok(Decimal128(precision, scale))
  {
    DecimalTextShape(precision, scale);
    TrimTrimmed(DecimalText(precision, scale));
    ParseDecimalText(dialect, precision, scale);
  }

  /** A decimal cut at its comma is refused. */
  lemma ParseCutDecimal(dialect: Dialect, precision: u8)
    ensures Parse(dialect, "decimal(" + NatToString(precision)) == Err(InvalidArgument)
  {
    var s := "decimal(" + NatToString(precision);
    var n := |s| - 1;
    assert IsDigit(s[n]) && s[0] == 'd';
    TrimTrimmed(s);
    assert ToLower(s) == s;
    assert StartsWith(s, "decimal") && s != "decimal";
  }

  // Glue's splitters

  lemma {:induction false} AngleThrough(piece: string, rest: string, current: string, d: Depth)
    requires d.paren == 0 && Absorb(false, d, piece).Some?
    ensures var e := Absorb(false, d, piece).value;
            && e.paren == 0
            && AnglePieces(piece + rest, current, d.angle) == AnglePieces(rest, current + piece, e.angle)
            && AngleSplit(piece + rest, current, d.angle) == AngleSplit(rest, current + piece, e.angle)
    decreases |piece|
  {
    if piece == [] {
      assert piece + rest == rest && current + piece == current;
    } else {
      assert (piece + rest)[1..] == piece[1..] + rest;
      assert current + [piece[0]] + piece[1..] == current + piece;
      AngleThrough(piece[1..], rest, current + [piece[0]], Step(false, d, piece[0]).value);
    }
  }

  /** A piece that Glue's splitters see up to a top-level comma. */
  lemma {:induction false} AngleComma(piece: string, rest: string)
    requires Neutral(false, piece)
    ensures AnglePieces(piece + "," + rest, [], 0) == [Trim(piece)] + AnglePieces(rest, [], 0)
    ensures AngleSplit(piece + "," + rest, [], 0) == Some((piece, rest))
  {
    AngleThrough(piece, "," + rest, [], TOP);
    assert piece + "," + rest == piece + ("," + rest) && [] + piece == piece;
    assert ("," + rest)[1..] == rest;
  }

  lemma {:induction false} AngleLast(piece: string)
    requires Neutral(false, piece) && Trim(piece) != []
    ensures AnglePieces(piece, [], 0) == [Trim(piece)]
  {
    AngleThrough(piece, [], [], TOP);
    assert piece + [] == piece && [] + piece == piece;
  }

  /** The text of a member is trimmed and splits at its colon. */
  lemma {:induction false} MemberText(dialect: Dialect, m: Member)
    requires TameName(dialect, m.name) && Tame(dialect, m.shape)
    ensures var s := RenderMember(m); s != [] && Trimmed(s) && Trim(s) == s
    ensures SplitOnce(RenderMember(m), ':') == Some((m.name, Render(m.shape)))
  {
    var s, text := RenderMember(m), Render(m.shape);
    RenderTrimmed(m.shape);
    assert s[|s| - 1] == text[|text| - 1];
    if m.name != [] {
      assert s[0] == m.name[0];
    }
    TrimTrimmed(s);
    SplitOnceConcat(m.name, ':', text);
  }

  ghost function MemberOutcome(dialect: Dialect, m: Member): Result<Field>
    requires Tame(dialect, m.shape)
  {
    var t :- Outcome(dialect, m.shape);
    Ok(PlainField(m.name, t, true))
  }

  lemma {:induction false} ParseMember(dialect: Dialect, m: Member)
    requires TameName(dialect, m.name) && Tame(dialect, m.shape)
    requires Parse(dialect, Render(m.shape)) == Outcome(dialect, m.shape)
    ensures ParseField(dialect, RenderMember(m)) == MemberOutcome(dialect, m)
  {
    MemberText(dialect, m);
    if dialect == Glue {
      TrimTrimmed(m.name);
    }
  }

  // The round trip

  /** Parsing a rendered shape, for both dialects. */
  lemma {:induction false} ParseInvertsRender(dialect: Dialect, x: Shape)
    requires Tame(dialect, x) && LowerCase(x)
    ensures Parse(dialect, Render(x)) == Outcome(dialect, x)
    decreases x, 1
  {
    ParseRendered(dialect, x);
    match x
    case Word(keyword) => ParseWord(dialect, keyword);
    case Decimal(precision, scale) => ParseDecimalText(dialect, precision, scale);
    case ArrayOf(element) =>
      ParseInvertsRender(dialect, element);
      ParseArray(dialect, element);
    case MapOfShapes(key, value) =>
      ParseInvertsRender(dialect, key);
      ParseInvertsRender(dialect, value);
      ParseMap(dialect, key, value);
    case StructOf(members) =>
      ParseMembers(dialect, members);
      ParseStruct(dialect, members);
  }

  lemma {:induction false} ParseArray(dialect: Dialect, element: Shape)
    requires Tame(dialect, element) && Parse(dialect, Render(element)) == Outcome(dialect, element)
    ensures ParseLowered(dialect, Render(ArrayOf(element))) == Outcome(dialect, ArrayOf(element))
  {
    ParseEnclosed(dialect, "array<", Render(element));
  }

  lemma {:induction false} ParseStruct(dialect: Dialect, members: seq<Member>)
    requires TameMembers(dialect, members)
    requires var inner := Join(RenderMembers(members), ",");
             && FieldTexts(dialect, inner).Ok?
             && ParseFields(dialect, FieldTexts(dialect, inner).value, |inner|) == MembersOutcome(dialect, members)
    ensures ParseLowered(dialect, Render(StructOf(members))) == Outcome(dialect, StructOf(members))
  {
    ParseEnclosed(dialect, "struct<", Join(RenderMembers(members), ","));
  }

  /** Which constructor the parser takes, and the body it hands on. */
  lemma ParseEnclosed(dialect: Dialect, open: string, body: string)
    requires open == "array<" || open == "map<" || open == "struct<"
    ensures var s := open + body + ">";
            && !StartsWith(s, "decimal")
            && (StartsWith(s, "array<") <==> open == "array<")
            && (StartsWith(s, "map<") <==> open == "map<")
            && (StartsWith(s, "struct<") <==> open == "struct<")
            && Strip(s, open, '>') == Some(body)
  {
    var s := open + body + ">";
    assert s[0] == open[0];
    StripEnclosed(open, body, '>');
  }

  // Maps

  /** A decimal's text up to its comma, and what follows the comma. */
  lemma CutDecimal(precision: u8, scale: i8)
    ensures var head := "decimal(" + NatToString(precision);
            && Neutral(false, head)
            && DecimalText(precision, scale) == head + "," + (IntToString(scale) + ")")
  {
    PlainNeutral(false, TOP, "decimal(" + NatToString(precision));
  }

  lemma {:induction false} KeyValueTextsOf(dialect: Dialect, key: Shape, value: Shape)
    requires Tame(dialect, key) && Tame(dialect, value) && !ExposedComma(dialect, key)
    requires dialect == Hive ==> !ExposedComma(dialect, value)
    ensures KeyValueTexts(dialect, Render(key) + "," + Render(value)) == Ok((Render(key), Render(value)))
  {
    var k, v := Render(key), Render(value);
    RenderTrimmed(key);
    RenderTrimmed(value);
    TrimTrimmed(k);
    TrimTrimmed(v);
    RenderAbsorb(dialect, key, TOP);
    if dialect == Hive {
      RenderAbsorb(dialect, value, TOP);
      SplitInvertsJoin([k, v]);
      assert Join([k, v], ",") == k + "," + v by {
        assert [k, v][1..] == [v];
      }
      assert TrimAll([k, v]) == [k, v];
    } else {
      AngleComma(k, v);
    }
  }

  /** Glue reads only the cut decimal as the key. */
  lemma {:induction false} KeyValueTextsCut(precision: u8, scale: i8, v: string)
    ensures var r := KeyValueTexts(Glue, DecimalText(precision, scale) + "," + v);
            r.Ok? && r.value.0 == "decimal(" + NatToString(precision)
  {
    var head, tail := "decimal(" + NatToString(precision), IntToString(scale) + ")";
    CutDecimal(precision, scale);
    assert head[0] == 'd' && IsDigit(head[|head| - 1]);
    FirstText(head, tail, v);
  }

  lemma FirstText(head: string, tail: string, v: string)
    requires Neutral(false, head) && head != [] && Trimmed(head)
    ensures var r := KeyValueTexts(Glue, head + "," + tail + "," + v); r.Ok? && r.value.0 == head
  {
    AngleComma(head, tail + "," + v);
    assert head + "," + (tail + "," + v) == head + "," + tail + "," + v;
    TrimTrimmed(head);
  }

  lemma {:induction false} ParseMap(dialect: Dialect, key: Shape, value: Shape)
    requires Tame(dialect, key) && Tame(dialect, value)
    requires Parse(dialect, Render(key)) == Outcome(dialect, key)
    requires Parse(dialect, Render(value)) == Outcome(dialect, value)
    ensures ParseLowered(dialect, Render(MapOfShapes(key, value))) == Outcome(dialect, MapOfShapes(key, value))
  {
    ParseMapText(dialect, Render(key) + "," + Render(value));
    ParsePair(dialect, key, value);
  }

  lemma {:induction false} ParsePair(dialect: Dialect, key: Shape, value: Shape)
    requires Tame(dialect, key) && Tame(dialect, value)
    requires Parse(dialect, Render(key)) == Outcome(dialect, key)
    requires Parse(dialect, Render(value)) == Outcome(dialect, value)
    ensures ParseMapBody(dialect, Render(key) + "," + Render(value)) == Outcome(dialect, MapOfShapes(key, value))
  {
    if ExposedComma(dialect, key) {
      ParseCutKey(key, Render(value));
    } else {
      KeyValueTextsOf(dialect, key, value);
      ParseTexts(dialect, Render(key) + "," + Render(value), Render(key), Render(value));
      PairOutcome(dialect, key, value);
    }
  }

  lemma ParseTexts(dialect: Dialect, inner: string, k: string, v: string)
    requires KeyValueTexts(dialect, inner) == Ok((k, v))
    ensures ParseMapBody(dialect, inner) == MapOfResults(dialect, Parse(dialect, k), Parse(dialect, v))
  {
  }

  lemma {:induction false} PairOutcome(dialect: Dialect, key: Shape, value: Shape)
    requires Tame(dialect, key) && Tame(dialect, value) && !ExposedComma(dialect, key)
    ensures Outcome(dialect, MapOfShapes(key, value))
            == MapOfResults(dialect, Outcome(dialect, key), Outcome(dialect, value))
  {
  }

  ghost function MapOfResults(dialect: Dialect, key: Result<DataType>, value: Result<DataType>): Result<DataType> {
    var k :- key;
    var v :- value;
    Ok(MapOf(dialect, k, v))
  }

  lemma {:induction false} ParseCutKey(key: Shape, v: string)
    requires key.Decimal?
    ensures ParseMapBody(Glue, Render(key) + "," + v) == Err(InvalidArgument)
  {
    KeyValueTextsCut(key.precision, key.scale, v);
    ParseCutDecimal(Glue, key.precision);
  }

  lemma ParseMapText(dialect: Dialect, inner: string)
    ensures ParseLowered(dialect, "map<" + inner + ">") == ParseMapBody(dialect, inner)
  {
    ParseEnclosed(dialect, "map<", inner);
  }

  ghost function ParseMapBody(dialect: Dialect, inner: string): Result<DataType> {
    var kv :- KeyValueTexts(dialect, inner);
    var k :- Parse(dialect, kv.0);
    var v :- Parse(dialect, kv.1);
    Ok(MapOf(dialect, k, v))
  }

  // Structs

  ghost function MembersOutcome(dialect: Dialect, members: seq<Member>): Result<seq<Field>>
    requires TameMembers(dialect, members)
  {
    if RecoverableMembers(dialect, members) then Ok(DenoteMembers(dialect, members)) else Err(InvalidArgument)
  }

  ghost function Cons(first: Result<Field>, rest: Result<seq<Field>>): Result<seq<Field>> {
    var f :- first;
    var fs :- rest;
    Ok([f] + fs)
  }

  lemma {:induction false} MembersOutcomeCons(dialect: Dialect, members: seq<Member>)
    requires TameMembers(dialect, members) && members != []
    ensures MembersOutcome(dialect, members) ==
            if ExposedComma(dialect, members[0].shape) then Err(InvalidArgument)
            else Cons(MemberOutcome(dialect, members[0]), MembersOutcome(dialect, members[1..]))
  {
  }

  lemma {:induction false} ParseFieldsCons(dialect: Dialect, first: string, rest: seq<string>, limit: nat)
    requires |first| <= limit && forall i :: 0 <= i < |rest| ==> |rest[i]| <= limit
    ensures ParseFields(dialect, [first] + rest, limit) ==
            Cons(ParseField(dialect, first), ParseFields(dialect, rest, limit))
  {
    assert ([first] + rest)[1..] == rest;
  }

  lemma {:induction false} ParseMembers(dialect: Dialect, members: seq<Member>)
    requires TameMembers(dialect, members) && LowerCaseMembers(members)
    ensures var inner := Join(RenderMembers(members), ",");
            && FieldTexts(dialect, inner).Ok?
            && ParseFields(dialect, FieldTexts(dialect, inner).value, |inner|) == MembersOutcome(dialect, members)
    decreases members, 1
  {
    var inner := Join(RenderMembers(members), ",");
    if dialect == Hive {
      HiveFieldTexts(members);
      HiveMembers(members, |inner|);
    } else if members != [] {
      MemberText(dialect, members[0]);
      GlueMembers(members, |inner|);
    }
  }

  /** The Metastore splitter finds the members. */
  lemma {:induction false} HiveFieldTexts(members: seq<Member>)
    requires TameMembers(Hive, members)
    ensures Pieces(Join(RenderMembers(members), ",")) == Ok(RenderMembers(members))
  {
    var parts := RenderMembers(members);
    MembersNeutral(members);
    SplitInvertsJoin(parts);
    assert DropEmptyLast(parts) == parts;
    assert TrimAll(parts) == parts;
  }

  lemma {:induction false} MembersNeutral(members: seq<Member>)
    requires TameMembers(Hive, members)
    ensures var parts := RenderMembers(members);
            AllNeutral(true, parts) && forall i :: 0 <= i < |parts| ==> parts[i] != [] && Trim(parts[i]) == parts[i]
  {
    if members != [] {
      MemberNeutral(members[0]);
      MembersNeutral(members[1..]);
      NeutralCons(RenderMember(members[0]), RenderMembers(members[1..]));
    }
  }

  lemma NeutralCons(part: string, rest: seq<string>)
    requires Neutral(true, part) && part != [] && Trim(part) == part
    requires AllNeutral(true, rest) && forall i :: 0 <= i < |rest| ==> rest[i] != [] && Trim(rest[i]) == rest[i]
    ensures var parts := [part] + rest;
            AllNeutral(true, parts) && forall i :: 0 <= i < |parts| ==> parts[i] != [] && Trim(parts[i]) == parts[i]
  {
    assert ([part] + rest)[1..] == rest;
  }

  lemma {:induction false} MemberNeutral(m: Member)
    requires TameName(Hive, m.name) && Tame(Hive, m.shape)
    ensures var part := RenderMember(m); Neutral(true, part) && part != [] && Trim(part) == part
  {
    RenderAbsorb(Hive, m.shape, TOP);
    MemberAbsorb(Hive, m, TOP);
    MemberText(Hive, m);
  }

  lemma {:induction false} HiveMembers(members: seq<Member>, limit: nat)
    requires TameMembers(Hive, members) && LowerCaseMembers(members)
    requires forall p :: p in RenderMembers(members) ==> |p| <= limit
    ensures ParseFields(Hive, RenderMembers(members), limit) == MembersOutcome(Hive, members)
    decreases members, 0
  {
    if members != [] {
      ParseInvertsRender(Hive, members[0].shape);
      ParseMember(Hive, members[0]);
      HiveMembers(members[1..], limit);
      ParseFieldsCons(Hive, RenderMember(members[0]), RenderMembers(members[1..]), limit);
      MembersOutcomeCons(Hive, members);
    }
  }

  /** Glue's splitter finds the members up to the first exposed decimal, and fails there. */
  lemma {:induction false} GlueMembers(members: seq<Member>, limit: nat)
    requires TameMembers(Glue, members) && LowerCaseMembers(members) && members != []
    requires |Join(RenderMembers(members), ",")| <= limit
    ensures ParseFields(Glue, AnglePieces(Join(RenderMembers(members), ","), [], 0), limit)
            == MembersOutcome(Glue, members)
    decreases members, 0
  {
    var first, rest := members[0], members[1..];
    var parts := RenderMembers(members);
    assert parts[1..] == RenderMembers(rest);
    MembersOutcomeCons(Glue, members);
    if ExposedComma(Glue, first.shape) {
      var suffix := if rest == [] then "" else "," + Join(parts[1..], ",");
      assert Join(parts, ",") == parts[0] + suffix;
      GlueCutMember(first, suffix, limit);
      return;
    }
    RenderAbsorb(Glue, first.shape, TOP);
    MemberAbsorb(Glue, first, TOP);
    MemberText(Glue, first);
    ParseInvertsRender(Glue, first.shape);
    ParseMember(Glue, first);
    if rest == [] {
      AngleLast(parts[0]);
      ParseFieldsCons(Glue, parts[0], [], limit);
    } else {
      AngleComma(parts[0], Join(parts[1..], ","));
      GlueMembers(rest, limit);
      ParseFieldsCons(Glue, parts[0], AnglePieces(Join(parts[1..], ","), [], 0), limit);
    }
  }

  lemma {:induction false} GlueCutMember(m: Member, rest: string, limit: nat)
    requires TameName(Glue, m.name) && m.shape.Decimal?
    requires |RenderMember(m) + rest| <= limit
    ensures ParseFields(Glue, AnglePieces(RenderMember(m) + rest, [], 0), limit) == Err(InvalidArgument)
  {
    var p, s := m.shape.precision, m.shape.scale;
    var head := "decimal(" + NatToString(p);
    var piece, tail := m.name + ":" + head, IntToString(s) + ")" + rest;
    CutDecimal(p, s);
    assert Neutral(false, piece) by {
      AbsorbNext(false, TOP, m.name, ':');
      AbsorbConcat(false, TOP, m.name + ":", head);
    }
    assert RenderMember(m) + rest == piece + "," + tail;
    AngleComma(piece, tail);
    assert Trimmed(piece) by {
      assert IsDigit(piece[|piece| - 1]);
      assert m.name != [] ==> piece[0] == m.name[0];
    }
    TrimTrimmed(piece);
    SplitOnceConcat(m.name, ':', head);
    ParseCutDecimal(Glue, p);
    ParseFieldsCons(Glue, piece, AnglePieces(tail, [], 0), limit);
  }
}
