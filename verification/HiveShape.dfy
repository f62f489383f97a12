/**
Hive type syntax as a tree, and the round trip of its textual form.

Printing an Arrow type goes through far fewer shapes than there are Arrow types. The
argument about text (trimming, case, splitting at commas) is made once over the shapes.
*/
module HiveShape {
  import opened Arrow
  import opened Text
  import opened TopLevel
  import opened HiveSyntax

  datatype Shape =
    | Word(keyword: Keyword)
    | Decimal(precision: u8, scale: i8)
    | ArrayOf(element: Shape)
    | MapOfShapes(key: Shape, value: Shape)
    | StructOf(members: seq<Member>)

  datatype Member = Member(name: string, shape: Shape)

  function Render(x: Shape): string
    decreases x, 1
  {
    match x
    case Word(keyword) => KeywordText(keyword)
    case Decimal(precision, scale) => DecimalText(precision, scale)
    case ArrayOf(element) => "array<" + Render(element) + ">"
    case MapOfShapes(key, value) => "map<" + (Render(key) + "," + Render(value)) + ">"
    case StructOf(members) => "struct<" + Join(RenderMembers(members), ",") + ">"
  }

  function RenderMembers(members: seq<Member>): (r: seq<string>)
    ensures |r| == |members|
    decreases members, 0
  {
    if members == [] then []
    else [RenderMember(members[0])] + RenderMembers(members[1..])
  }

  function RenderMember(m: Member): string
    decreases m, 2
  {
    m.name + ":" + Render(m.shape)
  }

  /**
  A name that can be told apart from its surroundings: no colon, brackets balanced and no
  comma outside them, and no whitespace where the parser trims.
  */
  predicate TameName(dialect: Dialect, name: string) {
    && ':' !in name
    && Neutral(dialect == Hive, name)
    && (if dialect == Hive then name == [] || !IsWhitespace(name[0]) else Trimmed(name))
  }

  predicate Tame(dialect: Dialect, x: Shape)
    decreases x, 1
  {
    match x
    case Word(_) | Decimal(_, _) => true
    case ArrayOf(element) => Tame(dialect, element)
    case MapOfShapes(key, value) => Tame(dialect, key) && Tame(dialect, value)
    case StructOf(members) => TameMembers(dialect, members)
  }

  predicate TameMembers(dialect: Dialect, members: seq<Member>)
    decreases members, 0
  {
    members == [] ||
    (TameName(dialect, members[0].name) && Tame(dialect, members[0].shape) && TameMembers(dialect, members[1..]))
  }

  /** A decimal's comma is not protected by parentheses in Glue's splitters. */
  predicate ExposedComma(dialect: Dialect, x: Shape) {
    dialect == Glue && x.Decimal?
  }

  /** No decimal is a direct struct field or a direct map key, at any depth; no restriction for the Metastore. */
  predicate Recoverable(dialect: Dialect, x: Shape)
    decreases x, 1
  {
    match x
    case Word(_) | Decimal(_, _) => true
    case ArrayOf(element) => Recoverable(dialect, element)
    case MapOfShapes(key, value) =>
      !ExposedComma(dialect, key) && Recoverable(dialect, key) && Recoverable(dialect, value)
    case StructOf(members) => RecoverableMembers(dialect, members)
  }

  predicate RecoverableMembers(dialect: Dialect, members: seq<Member>)
    decreases members, 0
  {
    members == [] ||
    (&& !ExposedComma(dialect, members[0].shape)
     && Recoverable(dialect, members[0].shape)
     && RecoverableMembers(dialect, members[1..]))
  }

  function KeywordType(dialect: Dialect, k: Keyword): DataType {
    match k
    case KwVoid => Null
    case KwBoolean => Boolean
    case KwTinyint => Int8
    case KwSmallint => Int16
    case KwInt => Int32
    case KwBigint => Int64
    case KwFloat => Float32
    case KwDouble => Float64
    case KwString => Utf8
    case KwBinary => Binary
    case KwDate => Date32
    case KwTimestamp => if dialect == Hive then UTC_MICROS else LOCAL_MICROS
  }

  /** The Arrow type a shape denotes: nullable children, lower-case names. */
  function Denote(dialect: Dialect, x: Shape): DataType
    decreases x, 1
  {
    match x
    case Word(keyword) => KeywordType(dialect, keyword)
    case Decimal(precision, scale) => Decimal128(precision, scale)
    case ArrayOf(element) => List(PlainField("item", Denote(dialect, element), true))
    case MapOfShapes(key, value) => MapOf(dialect, Denote(dialect, key), Denote(dialect, value))
    case StructOf(members) => Struct(DenoteMembers(dialect, members))
  }

  function DenoteMembers(dialect: Dialect, members: seq<Member>): (r: seq<Field>)
    ensures |r| == |members|
    decreases members, 0
  {
    if members == [] then []
    else
      [PlainField(members[0].name, Denote(dialect, members[0].shape), true)]
      + DenoteMembers(dialect, members[1..])
  }

  // Trimming

  lemma TrimTrimmed(s: string)
    requires Trimmed(s)
    ensures Trim(s) == s
  {
  }

  lemma WordShape(s: string)
    requires LowerWord(s)
    ensures Trimmed(s) && ToLower(s) == s && Plain(true, s)
  {
  }

  lemma KeywordWord(k: Keyword)
    ensures var w := KeywordText(k);
            LowerWord(w) && !StartsWith(w, "decimal") && Trimmed(w) && ToLower(w) == w && Plain(true, w)
  {
    var w := KeywordText(k);
    assert |w| < 7 || w[0] != "decimal"[0];
    assert LowerWord(w);
    WordShape(w);
  }

  lemma DecimalTextShape(precision: u8, scale: i8)
    ensures var s := DecimalText(precision, scale); s != [] && Trimmed(s) && ToLower(s) == s
  {
    IntToStringChars(scale);
  }

  lemma EnclosedShape(open: string, body: string)
    requires open != [] && !IsWhitespace(open[0])
    ensures var s := open + body + ">"; s != [] && Trimmed(s)
  {
    var s := open + body + ">";
    assert s[0] == open[0] && s[|s| - 1] == '>';
  }

  lemma {:induction false} RenderTrimmed(x: Shape)
    ensures Render(x) != [] && Trimmed(Render(x))
  {
    match x
    case Word(keyword) => KeywordWord(keyword);
    case Decimal(precision, scale) => DecimalTextShape(precision, scale);
    case ArrayOf(element) => EnclosedShape("array<", Render(element));
    case MapOfShapes(key, value) => EnclosedShape("map<", Render(key) + "," + Render(value));
    case StructOf(members) => EnclosedShape("struct<", Join(RenderMembers(members), ","));
  }

  // Splitting

  /** Two comma-free texts around a comma, below the top level. */
  lemma PairAbsorb(parens: bool, d: Depth, a: string, b: string)
    requires d != TOP
    requires Absorb(parens, d, a) == Some(d) && Absorb(parens, d, b) == Some(d)
    ensures Absorb(parens, d, a + "," + b) == Some(d)
  {
    AbsorbNext(parens, d, a, ',');
    AbsorbConcat(parens, d, a + ",", b);
  }

  lemma DecimalHeadAbsorb(parens: bool, d: Depth)
    requires parens || d != TOP
    ensures Absorb(parens, d, "decimal(") == Some(if parens then d.(paren := d.paren + 1) else d)
  {
    PlainNeutral(parens, d, "decimal");
    AbsorbNext(parens, d, "decimal", '(');
    assert "decimal" + ['('] == "decimal(";
  }

  lemma DecimalAbsorb(parens: bool, d: Depth, precision: u8, scale: i8)
    requires parens || d != TOP
    ensures Absorb(parens, d, DecimalText(precision, scale)) == Some(d)
  {
    var p, s := NatToString(precision), IntToString(scale);
    var e := if parens then d.(paren := d.paren + 1) else d;
    DecimalHeadAbsorb(parens, d);
    assert Absorb(parens, e, p + "," + s) == Some(e) by {
      IntToStringChars(scale);
      PlainNeutral(parens, e, p);
      PlainNeutral(parens, e, s);
      PairAbsorb(parens, e, p, s);
    }
    AbsorbConcat(parens, d, "decimal(", p + "," + s);
    AbsorbNext(parens, d, "decimal(" + (p + "," + s), ')');
  }

  lemma EnclosedAbsorb(parens: bool, d: Depth, head: string, body: string, open: string)
    requires LowerWord(head) && open == head + "<"
    requires var e := d.(angle := d.angle + 1); Absorb(parens, e, body) == Some(e)
    ensures Absorb(parens, d, open + body + ">") == Some(d)
  {
    WordShape(head);
    AbsorbAngled(parens, d, head, body);
  }

  /** A rendered shape is one piece, unless its own comma is exposed to the splitter. */
  lemma {:induction false} RenderAbsorb(dialect: Dialect, x: Shape, d: Depth)
    requires Tame(dialect, x)
    requires d != TOP || !ExposedComma(dialect, x)
    ensures Absorb(dialect == Hive, d, Render(x)) == Some(d)
    decreases x, 1
  {
    var parens := dialect == Hive;
    var e := d.(angle := d.angle + 1);
    match x
    case Word(keyword) =>
      KeywordWord(keyword);
      PlainNeutral(parens, d, KeywordText(keyword));
    case Decimal(precision, scale) =>
      DecimalAbsorb(parens, d, precision, scale);
    case ArrayOf(element) =>
      RenderAbsorb(dialect, element, e);
      EnclosedAbsorb(parens, d, "array", Render(element), "array<");
    case MapOfShapes(key, value) =>
      RenderAbsorb(dialect, key, e);
      RenderAbsorb(dialect, value, e);
      PairAbsorb(parens, e, Render(key), Render(value));
      EnclosedAbsorb(parens, d, "map", Render(key) + "," + Render(value), "map<");
    case StructOf(members) =>
      MembersAbsorb(dialect, members, e);
      EnclosedAbsorb(parens, d, "struct", Join(RenderMembers(members), ","), "struct<");
  }

  lemma {:induction false} MemberAbsorb(dialect: Dialect, m: Member, d: Depth)
    requires TameName(dialect, m.name)
    requires Absorb(dialect == Hive, d, Render(m.shape)) == Some(d)
    ensures Absorb(dialect == Hive, d, RenderMember(m)) == Some(d)
  {
    var parens := dialect == Hive;
    NeutralAnywhere(parens, d, m.name);
    AbsorbNext(parens, d, m.name, ':');
    AbsorbConcat(parens, d, m.name + ":", Render(m.shape));
  }

  lemma {:induction false} MembersAbsorb(dialect: Dialect, members: seq<Member>, d: Depth)
    requires TameMembers(dialect, members)
    requires d != TOP
    ensures Absorb(dialect == Hive, d, Join(RenderMembers(members), ",")) == Some(d)
    decreases members, 0
  {
    if members != [] {
      var parts := RenderMembers(members);
      RenderAbsorb(dialect, members[0].shape, d);
      MemberAbsorb(dialect, members[0], d);
      if |members| > 1 {
        MembersAbsorb(dialect, members[1..], d);
        assert parts[1..] == RenderMembers(members[1..]);
        PairAbsorb(dialect == Hive, d, parts[0], Join(parts[1..], ","));
      }
    }
  }

  // Case

  predicate LowerCase(x: Shape)
    decreases x, 1
  {
    match x
    case Word(_) | Decimal(_, _) => true
    case ArrayOf(element) => LowerCase(element)
    case MapOfShapes(key, value) => LowerCase(key) && LowerCase(value)
    case StructOf(members) => LowerCaseMembers(members)
  }

  predicate LowerCaseMembers(members: seq<Member>)
    decreases members, 0
  {
    members == [] ||
    (ToLower(members[0].name) == members[0].name && LowerCase(members[0].shape) && LowerCaseMembers(members[1..]))
  }

  function LowerShape(x: Shape): Shape
    decreases x, 1
  {
    match x
    case Word(_) | Decimal(_, _) => x
    case ArrayOf(element) => ArrayOf(LowerShape(element))
    case MapOfShapes(key, value) => MapOfShapes(LowerShape(key), LowerShape(value))
    case StructOf(members) => StructOf(LowerMembers(members))
  }

  function LowerMembers(members: seq<Member>): (r: seq<Member>)
    ensures |r| == |members|
    decreases members, 0
  {
    if members == [] then []
    else [Member(ToLower(members[0].name), LowerShape(members[0].shape))] + LowerMembers(members[1..])
  }

  lemma LowerEnclosed(open: string, body: string)
    requires ToLower(open) == open
    ensures ToLower(open + body + ">") == open + ToLower(body) + ">"
  {
    LowerConcat(open, body);
    LowerConcat(open + body, ">");
  }

  lemma LowerPair(a: string, sep: string, b: string)
    requires ToLower(sep) == sep
    ensures ToLower(a + sep + b) == ToLower(a) + sep + ToLower(b)
  {
    LowerConcat(a, sep);
    LowerConcat(a + sep, b);
  }

  /** Lower-casing the text lower-cases the names and nothing else. */
  lemma {:induction false} RenderLower(x: Shape)
    ensures ToLower(Render(x)) == Render(LowerShape(x))
    decreases x, 1
  {
    match x
    case Word(keyword) => KeywordWord(keyword);
    case Decimal(precision, scale) => DecimalTextShape(precision, scale);
    case ArrayOf(element) =>
      RenderLower(element);
      LowerEnclosed("array<", Render(element));
    case MapOfShapes(key, value) =>
      RenderLower(key);
      RenderLower(value);
      LowerPair(Render(key), ",", Render(value));
      LowerEnclosed("map<", Render(key) + "," + Render(value));
    case StructOf(members) =>
      MembersLower(members);
      LowerEnclosed("struct<", Join(RenderMembers(members), ","));
  }

  lemma {:induction false} MembersLower(members: seq<Member>)
    ensures ToLower(Join(RenderMembers(members), ",")) == Join(RenderMembers(LowerMembers(members)), ",")
    decreases members, 0
  {
    if members != [] {
      var parts, lower := RenderMembers(members), RenderMembers(LowerMembers(members));
      var first := members[0];
      RenderLower(first.shape);
      LowerPair(first.name, ":", Render(first.shape));
      assert parts[1..] == RenderMembers(members[1..]);
      assert LowerMembers(members)[1..] == LowerMembers(members[1..]);
      assert lower[1..] == RenderMembers(LowerMembers(members[1..]));
      if |members| > 1 {
        MembersLower(members[1..]);
        LowerPair(parts[0], ",", Join(parts[1..], ","));
      }
    }
  }

  lemma {:induction false} LowerAbsorb(parens: bool, d: Depth, s: string)
    ensures Absorb(parens, d, ToLower(s)) == Absorb(parens, d, s)
    decreases |s|
  {
    if s != [] {
      assert ToLower(s)[0] == LowerChar(s[0]) && ToLower(s)[1..] == ToLower(s[1..]);
      assert Step(parens, d, LowerChar(s[0])) == Step(parens, d, s[0]);
      match Step(parens, d, s[0])
      case None =>
      case Some(e) => LowerAbsorb(parens, e, s[1..]);
    }
  }

  lemma LowerNameTame(dialect: Dialect, name: string)
    requires TameName(dialect, name)
    ensures TameName(dialect, ToLower(name)) && ToLower(ToLower(name)) == ToLower(name)
  {
    LowerAbsorb(dialect == Hive, TOP, name);
    LowerIdempotent(name);
    if name != [] {
      assert ToLower(name)[0] == LowerChar(name[0]) && ToLower(name)[|name| - 1] == LowerChar(name[|name| - 1]);
    }
    forall i | 0 <= i < |name|
      ensures ToLower(name)[i] != ':'
    {
      assert name[i] in name;
    }
  }

  lemma {:induction false} LowerShapeTame(dialect: Dialect, x: Shape)
    requires Tame(dialect, x)
    ensures Tame(dialect, LowerShape(x)) && LowerCase(LowerShape(x))
    ensures Recoverable(dialect, LowerShape(x)) == Recoverable(dialect, x)
    ensures ExposedComma(dialect, LowerShape(x)) == ExposedComma(dialect, x)
    decreases x, 1
  {
    match x
    case Word(_) | Decimal(_, _) =>
    case ArrayOf(element) => LowerShapeTame(dialect, element);
    case MapOfShapes(key, value) =>
      LowerShapeTame(dialect, key);
      LowerShapeTame(dialect, value);
    case StructOf(members) => LowerMembersTame(dialect, members);
  }

  lemma {:induction false} LowerMembersTame(dialect: Dialect, members: seq<Member>)
    requires TameMembers(dialect, members)
    ensures TameMembers(dialect, LowerMembers(members)) && LowerCaseMembers(LowerMembers(members))
    ensures RecoverableMembers(dialect, LowerMembers(members)) == RecoverableMembers(dialect, members)
    decreases members, 0
  {
    if members != [] {
      LowerNameTame(dialect, members[0].name);
      LowerShapeTame(dialect, members[0].shape);
      LowerMembersTame(dialect, members[1..]);
      assert LowerMembers(members)[1..] == LowerMembers(members[1..]);
    }
  }

  lemma {:induction false} LowerCaseFixed(x: Shape)
    requires LowerCase(x)
    ensures LowerShape(x) == x
    decreases x, 1
  {
    match x
    case Word(_) | Decimal(_, _) =>
    case ArrayOf(element) => LowerCaseFixed(element);
    case MapOfShapes(key, value) =>
      LowerCaseFixed(key);
      LowerCaseFixed(value);
    case StructOf(members) => LowerCaseMembersFixed(members);
  }

  lemma {:induction false} LowerCaseMembersFixed(members: seq<Member>)
    requires LowerCaseMembers(members)
    ensures LowerMembers(members) == members
    decreases members, 0
  {
    if members != [] {
      LowerCaseFixed(members[0].shape);
      LowerCaseMembersFixed(members[1..]);
    }
  }
}
