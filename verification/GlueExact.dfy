/**
Exactly which types survive Glue's type strings.

Glue's splitters cut at commas of angle depth zero, wherever a name puts them. A printed
text is read back if and only if every cut falls on a comma the printer wrote. The hard half
is that a cut anywhere else can never give the same type by accident: no text that ends at
another edge than the printed one reads as the same type.
*/
module GlueExact {
  import opened Arrow
  import opened Text
  import opened TopLevel
  import opened HiveSyntax
  import opened HiveShape
  import opened HiveShapeParse
  import opened HiveNames
  import opened HiveRoundTrip
  import opened HiveImage
  import opened HiveExact
  import opened GlueCut

  // Names and cuts

  /** A name as Glue's parser cuts it. */
  predicate GlueName(name: string) {
    ':' !in name && Trimmed(name)
  }

  predicate Named(x: Shape)
    decreases x, 1
  {
    match x
    case Word(_) | Decimal(_, _) => true
    case ArrayOf(element) => Named(element)
    case MapOfShapes(key, value) => Named(key) && Named(value)
    case StructOf(members) => NamedMembers(members)
  }

  predicate NamedMembers(members: seq<Member>)
    decreases members, 0
  {
    members == [] || (GlueName(members[0].name) && Named(members[0].shape) && NamedMembers(members[1..]))
  }

  /** The text of a member has no comma at depth zero and, unless it is the last, comes back to depth zero. */
  predicate MemberKept(m: Member, last: bool) {
    var depth := AngleRun(0, RenderMember(m));
    if last then depth.Some? else depth == Some(0)
  }

  /** Glue's splitters cut a rendered shape exactly at the commas between its parts. */
  predicate Kept(x: Shape)
    decreases x, 1
  {
    match x
    case Word(_) | Decimal(_, _) => true
    case ArrayOf(element) => Kept(element)
    case MapOfShapes(key, value) => AngleRun(0, Render(key)) == Some(0) && Kept(key) && Kept(value)
    case StructOf(members) => MembersKept(members)
  }

  predicate MembersKept(members: seq<Member>)
    decreases members, 0
  {
    members == [] ||
    (MemberKept(members[0], |members| == 1) && Kept(members[0].shape) && MembersKept(members[1..]))
  }

  // No other text reads as the same leaf

  lemma NotOpened(u: string, w: string, q: string)
    requires LowerWord(w) && |w| < |u| && u[..|w|] == w && Edge(u[|w|])
    requires q != [] && (q[|q| - 1] == '<' || q[|q| - 1] == '(') && forall i :: 0 <= i < |q| - 1 ==> 'a' <= q[i] <= 'z'
    ensures !StartsWith(u, q)
  {
    assert forall i :: 0 <= i < |w| ==> u[i] == u[..|w|][i];
  }

  lemma KeywordIsWord(s: string)
    requires ParseKeyword(Glue, s).Ok?
    ensures forall i :: 0 <= i < |s| ==> !Edge(s[i])
  {
  }

  lemma WordUnique(k: Keyword, u: string)
    requires Off(u, KeywordText(k))
    ensures ParseLowered(Glue, u).Err?
  {
    var w := KeywordText(k);
    KeywordWord(k);
    assert forall i :: 0 <= i < |w| ==> !Edge(w[i]) && !IsWhitespace(w[i]);
    assert Longer(u, w);
    NotOpened(u, w, "array<");
    NotOpened(u, w, "map<");
    NotOpened(u, w, "struct<");
    NotOpened(u, w, "char(");
    NotOpened(u, w, "varchar(");
    NotDecimal(u, w);
    if ParseKeyword(Glue, u).Ok? {
      KeywordIsWord(u);
    }
  }

  lemma NotDecimal(u: string, w: string)
    requires LowerWord(w) && !StartsWith(w, "decimal") && |w| < |u| && u[..|w|] == w && Edge(u[|w|])
    ensures !StartsWith(u, "decimal")
  {
    var d := "decimal";
    if |w| < |d| {
      assert u[|w|] != d[|w|];
    } else {
      assert w[..|d|] == u[..|d|];
    }
  }

  lemma {:induction false} DigitsOnly(s: string)
    requires DigitsValue(s).Some?
    ensures forall i :: 0 <= i < |s| ==> IsDigit(s[i])
    decreases |s|
  {
    if |s| > 1 {
      DigitsOnly(s[..|s| - 1]);
    }
  }

  lemma ScaleChars(s: string, c: char)
    requires c in s && !IsDigit(c) && c != '+' && c != '-'
    ensures ParseI8(s).None?
  {
    var i :| 0 <= i < |s| && s[i] == c;
    if s[0] == '-' || s[0] == '+' {
      assert s[1..][i - 1] == c;
      if DigitsValue(s[1..]).Some? {
        DigitsOnly(s[1..]);
      }
    } else if DigitsValue(s).Some? {
      DigitsOnly(s);
    }
  }

  lemma {:induction false} TrimStartKeeps(s: string, c: char)
    requires c in s && !IsWhitespace(c)
    ensures c in TrimStart(s)
  {
    if s != [] && IsWhitespace(s[0]) {
      TrimStartKeeps(s[1..], c);
    }
  }

  lemma {:induction false} TrimEndKeeps(s: string, c: char)
    requires c in s && !IsWhitespace(c)
    ensures c in TrimEnd(s)
    decreases |s|
  {
    if s != [] && IsWhitespace(s[|s| - 1]) {
      assert s == s[..|s| - 1] + [s[|s| - 1]];
      TrimEndKeeps(s[..|s| - 1], c);
    }
  }

  lemma DecimalCut(precision: u8, scale: i8, u: string)
    requires Shorter(u, DecimalText(precision, scale))
    ensures u == "decimal(" + NatToString(precision)
  {
    NumberInner(scale);
    NumberInner(precision);
    NumbersCut(NatToString(precision), IntToString(scale), u);
  }

  lemma NumbersCut(p: string, s: string, u: string)
    requires Inner(p) && Inner(s) && Shorter(u, "decimal(" + (p + "," + s) + ")")
    ensures u == "decimal(" + p
  {
    var head, tail := "decimal(" + p, s + ")";
    assert "decimal(" + (p + "," + s) + ")" == head + "," + tail;
    InnerConcat("decimal(", p);
    InnerConcat(s, ")");
    CutAtComma(head, tail, u);
  }

  lemma NumberInner(n: int)
    ensures Inner(IntToString(n))
  {
    IntToStringChars(n);
  }

  lemma InnerConcat(a: string, b: string)
    requires Inner(a) && Inner(b)
    ensures Inner(a + b)
  {
  }

  /** Text without edges and blanks. */
  predicate Inner(s: string) {
    forall i :: 0 <= i < |s| ==> !Edge(s[i]) && !IsWhitespace(s[i])
  }

  lemma CutAtComma(head: string, tail: string, u: string)
    requires Inner(head) && Inner(tail) && Shorter(u, head + "," + tail)
    ensures u == head
  {
    var text := head + "," + tail;
    assert forall i :: 0 <= i < |head| ==> text[i] == head[i];
    assert forall i :: |head| < i < |text| ==> text[i] == tail[i - |head| - 1];
    assert |u| == |head|;
    assert text[..|head|] == head;
  }

  lemma DecimalExtended(precision: u8, scale: i8, inner: string)
    requires StartsWith(inner, NatToString(precision) + "," + IntToString(scale) + ")")
    ensures ParseDecimal(Glue, "decimal(" + inner + ")") == Err(InvalidArgument)
  {
    var p, s := NatToString(precision), IntToString(scale);
    var z := inner[|p| + 1..];
    assert inner == p + [','] + z && z[|s|] == ')' by {
      var start := p + "," + s + ")";
      assert inner[..|start|] == start;
    }
    NumberTrimmed(precision);
    TwoNumbersRefused(p, z);
  }

  lemma TwoNumbersRefused(p: string, z: string)
    requires ',' !in p && ')' in z
    ensures ParseDecimal(Glue, "decimal(" + (p + [','] + z) + ")") == Err(InvalidArgument)
  {
    var inner := p + [','] + z;
    StripEnclosed("decimal(", inner, ')');
    ExtendedParts(p, z);
    if |SplitOn(inner, ',')| == 2 {
      ScaleRefused(z);
    }
  }

  lemma ExtendedParts(p: string, z: string)
    requires ',' !in p
    ensures var parts := SplitOn(p + [','] + z, ',');
            |parts| >= 2 && (|parts| == 2 ==> parts[1] == z)
  {
    SplitOnceConcat(p, ',', z);
    assert SplitOn(p + [','] + z, ',') == [p] + SplitOn(z, ',');
  }

  lemma ScaleRefused(z: string)
    requires ')' in z
    ensures ParseI8(Trim(z)).None?
  {
    TrimStartKeeps(z, ')');
    TrimEndKeeps(TrimStart(z), ')');
    ScaleChars(Trim(z), ')');
  }

  lemma DecimalUnique(precision: u8, scale: i8, u: string)
    requires Off(u, DecimalText(precision, scale))
    ensures ParseLowered(Glue, u).Err?
  {
    var text := DecimalText(precision, scale);
    if Shorter(u, text) {
      DecimalCut(precision, scale, u);
      CutDecimalRefused(precision);
    } else {
      DecimalGoesOn(precision, scale, u);
    }
  }

  lemma CutDecimalRefused(precision: u8)
    ensures ParseLowered(Glue, "decimal(" + NatToString(precision)).Err?
  {
    var s := "decimal(" + NatToString(precision);
    assert IsDigit(s[|s| - 1]) && s[0] == 'd';
    TrimTrimmed(s);
    assert ToLower(s) == s;
    ParseCutDecimal(Glue, precision);
  }

  lemma DecimalGoesOn(precision: u8, scale: i8, u: string)
    requires Longer(u, DecimalText(precision, scale))
    ensures ParseLowered(Glue, u).Err?
  {
    var body := NatToString(precision) + "," + IntToString(scale) + ")";
    assert DecimalText(precision, scale) == "decimal(" + body;
    StartGoesOn("decimal(", body, u);
    var inner := Strip(u, "decimal(", ')');
    assert StartsWith(u, "decimal") && u != "decimal" by {
      assert u[..8][..7] == "decimal";
    }
    if inner.Some? {
      assert u == "decimal(" + inner.value + ")";
      DecimalExtended(precision, scale, inner.value);
    }
  }

  lemma StartGoesOn(open: string, body: string, u: string)
    requires Longer(u, open + body)
    ensures |open| < |u| && u[..|open|] == open
    ensures var inner := Strip(u, open, ')'); inner.Some? ==> StartsWith(inner.value, body)
  {
    var p := open + body;
    assert u[..|open|] == u[..|p|][..|open|] == open;
    var inner := Strip(u, open, ')');
    if inner.Some? {
      assert inner.value == u[|open|..|u| - 1];
      assert inner.value[..|body|] == u[..|p|][|open|..] == body;
    }
  }

  // No other text reads as the same nested type

  /** A text that is off a bracketed one is refused, or its body is off by a closing bracket. */
  lemma EnclosedOff(open: string, body: string, u: string)
    requires open == "array<" || open == "map<" || open == "struct<"
    requires Off(u, open + (body + ">"))
    ensures !StartsWith(u, "decimal")
    ensures StartsWith(u, "array<") <==> open == "array<"
    ensures StartsWith(u, "map<") <==> open == "map<"
    ensures StartsWith(u, "struct<") <==> open == "struct<"
    ensures var w := Strip(u, open, '>'); w.Some? ==> CloseOff(w.value, body) && |w.value| < |u|
  {
    OpenIsInner(open);
    OpenKept(open, body + ">", u);
    StartsOnce(open, u);
    var w := Strip(u, open, '>');
    if w.Some? {
      BodyOff(open, body, u, w.value);
    }
  }

  lemma OpenIsInner(open: string)
    requires open == "array<" || open == "map<" || open == "struct<"
    ensures Inner(open)
  {
  }

  lemma OpenKept(open: string, rest: string, u: string)
    requires Inner(open) && Off(u, open + rest)
    ensures |open| <= |u| && u[..|open|] == open
  {
    var p := open + rest;
    assert forall i :: 0 <= i < |open| ==> p[i] == open[i];
    assert p[..|open|] == open;
    if |u| < |p| {
      assert |u| >= |open|;
      assert u[..|open|] == p[..|u|][..|open|] == p[..|open|];
    } else {
      assert u[..|open|] == u[..|p|][..|open|] == p[..|open|];
    }
  }

  lemma StartsOnce(open: string, u: string)
    requires open == "array<" || open == "map<" || open == "struct<"
    requires |open| <= |u| && u[..|open|] == open
    ensures !StartsWith(u, "decimal")
    ensures StartsWith(u, "array<") <==> open == "array<"
    ensures StartsWith(u, "map<") <==> open == "map<"
    ensures StartsWith(u, "struct<") <==> open == "struct<"
  {
    assert u[0] == u[..|open|][0] == open[0];
  }

  lemma BodyOff(open: string, body: string, u: string, w: string)
    requires open != [] && Off(u, open + (body + ">")) && u == open + w + ['>']
    ensures CloseOff(w, body) && |w| < |u|
  {
    var a, b := w + ">", body + ">";
    assert u == open + a;
    DropCommon(open, a, b);
    if |a| < |b| {
      assert a == b[..|a|];
      assert w == a[..|w|] == body[..|w|] && body[|w|] == b[|w|] == a[|w|] == '>';
    } else {
      assert b == a[..|b|];
      assert body == b[..|body|] == w[..|body|] && w[|body|] == a[|body|] == b[|body|] == '>';
    }
  }

  lemma CloseIsOff(u: string, p: string)
    requires CloseOff(u, p)
    ensures Off(u, p)
  {
  }

  lemma RenderStart(x: Shape)
    ensures Render(x) != [] && !IsWhitespace(Render(x)[0])
  {
    RenderTrimmed(x);
  }

  lemma LowerPrefix(s: string, u: string)
    requires Lower(s) && u <= s
    ensures Lower(u)
  {
    LowerSlice(s, 0, |u|);
    assert s[0..|u|] == u;
  }

  /** No text that ends at another edge than the printed one reads as the same type. */
  lemma {:induction false} OffIsOther(x: Shape, r: string)
    requires Named(x) && LowerCase(x) && Lower(r) && Off(r, Render(x))
    ensures Parse(Glue, r) != Ok(Denote(Glue, x))
    decreases x, 3
  {
    RenderStart(x);
    TrimOff(r, Render(x));
    var u := Trim(r);
    LowerPrefix(r, u);
    if u == [] {
      EmptyRefused();
    } else {
      TrimmedOffIsOther(x, u);
    }
  }

  lemma EmptyRefused()
    ensures ParseLowered(Glue, "").Err?
  {
  }

  lemma {:induction false} TrimmedOffIsOther(x: Shape, u: string)
    requires Named(x) && LowerCase(x) && Lower(u) && Off(u, Render(x))
    ensures ParseLowered(Glue, u) != Ok(Denote(Glue, x))
    decreases x, 2
  {
    match x
    case Word(keyword) => WordUnique(keyword, u);
    case Decimal(precision, scale) => DecimalUnique(precision, scale, u);
    case ArrayOf(element) => ArrayOffIsOther(element, u);
    case MapOfShapes(key, value) => MapOffIsOther(key, value, u);
    case StructOf(members) => StructOffIsOther(members, u);
  }

  lemma StripLower(s: string, open: string)
    requires Lower(s) && Strip(s, open, '>').Some?
    ensures Lower(Strip(s, open, '>').value)
  {
    LowerSlice(s, |open|, |s| - 1);
  }

  lemma {:induction false} ArrayOffIsOther(element: Shape, u: string)
    requires Named(element) && LowerCase(element) && Lower(u) && Off(u, Render(ArrayOf(element)))
    ensures ParseLowered(Glue, u) != Ok(Denote(Glue, ArrayOf(element)))
    decreases element, 4
  {
    assert Render(ArrayOf(element)) == "array<" + (Render(element) + ">");
    EnclosedOff("array<", Render(element), u);
    var w := Strip(u, "array<", '>');
    if w.Some? {
      StripLower(u, "array<");
      CloseIsOff(w.value, Render(element));
      OffIsOther(element, w.value);
    }
  }

  lemma {:induction false} MapOffIsOther(key: Shape, value: Shape, u: string)
    requires Named(key) && Named(value) && LowerCase(key) && LowerCase(value)
    requires Lower(u) && Off(u, Render(MapOfShapes(key, value)))
    ensures ParseLowered(Glue, u) != Ok(Denote(Glue, MapOfShapes(key, value)))
    decreases MapOfShapes(key, value), 1
  {
    var body := Render(key) + "," + Render(value);
    assert Render(MapOfShapes(key, value)) == "map<" + (body + ">");
    EnclosedOff("map<", body, u);
    var w := Strip(u, "map<", '>');
    MapOpened(u);
    if w.Some? {
      StripLower(u, "map<");
      if ParseMapBody(Glue, w.value) == Ok(Denote(Glue, MapOfShapes(key, value))) {
        MapBodyNear(key, value, w.value);
      }
    }
  }

  lemma MapOpened(u: string)
    requires StartsWith(u, "map<") && !StartsWith(u, "array<") && !StartsWith(u, "decimal")
    ensures var w := Strip(u, "map<", '>');
            if w.Some? then ParseLowered(Glue, u) == ParseMapBody(Glue, w.value) else ParseLowered(Glue, u).Err?
  {
    assert u[0] == 'm' && u[3] == '<';
  }

  /** A map body near the printed one that reads as the same map is the printed one, cut at its comma. */
  lemma {:induction false} MapBodyNear(key: Shape, value: Shape, w: string)
    requires Named(key) && Named(value) && LowerCase(key) && LowerCase(value) && Lower(w)
    requires Near(w, Render(key) + "," + Render(value))
    requires ParseMapBody(Glue, w) == Ok(Denote(Glue, MapOfShapes(key, value)))
    ensures w == Render(key) + "," + Render(value) && AngleRun(0, Render(key)) == Some(0)
    ensures Parse(Glue, Render(key)) == Ok(Denote(Glue, key)) && Parse(Glue, Render(value)) == Ok(Denote(Glue, value))
    decreases MapOfShapes(key, value), 0
  {
    var c := FirstCut(w, [], 0);
    MapBodyParts(key, value, w, c);
    KeyPiece(w, Render(key), Render(value), c);
    LowerPrefix(w, w[..c]);
    if Off(w[..c], Render(key)) {
      OffIsOther(key, w[..c]);
    } else {
      TailOf(w, c, Render(key));
      ValuePiece(w, Render(key), Render(value), w[c + 1..]);
      if Off(w[c + 1..], Render(value)) {
        OffIsOther(value, w[c + 1..]);
      }
    }
  }

  lemma KeyPiece(w: string, k: string, v: string, c: nat)
    requires Near(w, k + "," + v) && c < |w| && w[c] == ','
    ensures w[..c] == k || Off(w[..c], k)
  {
    var body := k + "," + v;
    assert body[..|k|] == k && body[|k|] == ',';
    FirstPieceOff(w, body, k, c);
  }

  lemma ValuePiece(w: string, k: string, v: string, b: string)
    requires Near(w, k + "," + v) && w == k + "," + b
    ensures b == v || Off(b, v)
  {
    var head := k + ",";
    if w == head + v {
      assert b == w[|head|..] && v == (head + v)[|head|..];
    } else {
      DropCommonClose(head, b, v);
      CloseIsOff(b, v);
    }
  }

  lemma MapBodyParts(key: Shape, value: Shape, w: string, c: nat)
    requires c <= |w| && CutAt(w, [], 0, c)
    requires ParseMapBody(Glue, w) == Ok(Denote(Glue, MapOfShapes(key, value)))
    ensures c < |w|
    ensures Parse(Glue, w[..c]) == Ok(Denote(Glue, key)) && Parse(Glue, w[c + 1..]) == Ok(Denote(Glue, value))
  {
    if c < |w| {
      assert [] + w[..c] == w[..c];
      ParseTrimmed(w[..c]);
      ParseTrimmed(w[c + 1..]);
      SameMap(Parse(Glue, w[..c]), Parse(Glue, w[c + 1..]), key, value);
    }
  }

  lemma SameMap(k: Result<DataType>, v: Result<DataType>, key: Shape, value: Shape)
    requires k.Ok? && v.Ok? && MapOf(Glue, k.value, v.value) == Denote(Glue, MapOfShapes(key, value))
    ensures k.value == Denote(Glue, key) && v.value == Denote(Glue, value)
  {
    MapOfInjective(Glue, k.value, v.value, Denote(Glue, key), Denote(Glue, value));
  }

  lemma ParseTrimmed(s: string)
    ensures Parse(Glue, Trim(s)) == Parse(Glue, s)
  {
    TrimIsTrimmed(s);
    TrimTrimmed(Trim(s));
  }

  lemma {:induction false} StructOffIsOther(members: seq<Member>, u: string)
    requires NamedMembers(members) && LowerCaseMembers(members) && Lower(u) && Off(u, Render(StructOf(members)))
    ensures ParseLowered(Glue, u) != Ok(Denote(Glue, StructOf(members)))
    decreases StructOf(members), 1
  {
    var body := Join(RenderMembers(members), ",");
    assert Render(StructOf(members)) == "struct<" + (body + ">");
    var w := StructTextOff(body, DenoteMembers(Glue, members), u);
    if w.Some? {
      BodyOffIsOther(members, w.value);
    }
  }

  /** The body the parser would hand on, and what follows if it does not read as the fields. */
  lemma StructTextOff(body: string, fields: seq<Field>, u: string) returns (w: Option<string>)
    requires Lower(u) && Off(u, "struct<" + (body + ">"))
    ensures w.Some? ==> Lower(w.value) && CloseOff(w.value, body)
    ensures ParseLowered(Glue, u) == Ok(Struct(fields)) ==>
              w.Some? && ParseFields(Glue, AnglePieces(w.value, [], 0), |w.value|) == Ok(fields)
  {
    EnclosedOff("struct<", body, u);
    w := Strip(u, "struct<", '>');
    if w.Some? {
      StripLower(u, "struct<");
    }
    if w.None? || ParseFields(Glue, AnglePieces(w.value, [], 0), |w.value|) != Ok(fields) {
      StructOpened(u, fields);
    }
  }

  lemma {:induction false} BodyOffIsOther(members: seq<Member>, w: string)
    requires NamedMembers(members) && LowerCaseMembers(members) && Lower(w)
    requires CloseOff(w, Join(RenderMembers(members), ","))
    ensures ParseFields(Glue, AnglePieces(w, [], 0), |w|) != Ok(DenoteMembers(Glue, members))
    decreases StructOf(members), 0
  {
    if ParseFields(Glue, AnglePieces(w, [], 0), |w|) == Ok(DenoteMembers(Glue, members)) {
      MembersNear(members, w, |w|);
    }
  }

  lemma StructOpened(u: string, fields: seq<Field>)
    requires StartsWith(u, "struct<") && !StartsWith(u, "decimal") && !StartsWith(u, "array<") && !StartsWith(u, "map<")
    requires var w := Strip(u, "struct<", '>');
             w.None? || ParseFields(Glue, AnglePieces(w.value, [], 0), |w.value|) != Ok(fields)
    ensures ParseLowered(Glue, u) != Ok(Struct(fields))
  {
  }

  /** A field text that is off the printed member does not read as that member. */
  lemma {:induction false} FieldOffIsOther(m: Member, q: string)
    requires GlueName(m.name) && Named(m.shape) && LowerCase(m.shape) && Lower(q) && Off(q, RenderMember(m))
    ensures ParseField(Glue, Trim(q)) != Ok(PlainField(m.name, Denote(Glue, m.shape), true))
    decreases m.shape, 4
  {
    MemberStart(m);
    TrimOff(q, RenderMember(m));
    var z := Trim(q);
    LowerPrefix(q, z);
    if |z| <= |m.name| {
      NoColon(m.name, RenderMember(m), z);
    } else {
      FieldParts(m, z);
      LowerSuffix(z, |m.name| + 1);
      OffIsOther(m.shape, z[|m.name| + 1..]);
    }
  }

  lemma LowerSuffix(s: string, i: nat)
    requires Lower(s) && i <= |s|
    ensures Lower(s[i..])
  {
    LowerSlice(s, i, |s|);
    assert s[i..|s|] == s[i..];
  }

  lemma MemberStart(m: Member)
    requires GlueName(m.name)
    ensures var s := RenderMember(m); s != [] && !IsWhitespace(s[0]) && |m.name| <= |s| && s[..|m.name|] == m.name
  {
    var s := RenderMember(m);
    assert s[0] == if m.name == [] then ':' else m.name[0];
  }

  lemma NoColon(name: string, text: string, z: string)
    requires ':' !in name && |name| <= |text| && text[..|name|] == name && |z| <= |name|
    requires z == [] || Off(z, text)
    ensures ParseField(Glue, z).Err?
  {
    assert z <= name by {
      if z != [] {
        assert z == text[..|z|] == name[..|z|];
      }
    }
    ColonNeeded(z);
  }

  lemma ColonNeeded(z: string)
    requires ':' !in z
    ensures ParseField(Glue, z).Err?
  {
  }

  function FieldWith(name: string, r: Result<DataType>): Result<Field> {
    match r
    case Err(e) => Err(e)
    case Ok(t) => Ok(PlainField(name, t, true))
  }

  lemma FieldParts(m: Member, z: string)
    requires GlueName(m.name) && |z| > |m.name| && Off(z, RenderMember(m))
    ensures Off(z[|m.name| + 1..], Render(m.shape))
    ensures ParseField(Glue, z) == FieldWith(m.name, Parse(Glue, z[|m.name| + 1..]))
  {
    var head := m.name + ":";
    assert RenderMember(m) == head + Render(m.shape);
    HeadKept(head, Render(m.shape), z);
    FieldOf(m.name, z[|head|..]);
  }

  lemma HeadKept(head: string, tail: string, z: string)
    requires |head| <= |z| && Off(z, head + tail)
    ensures z == head + z[|head|..] && Off(z[|head|..], tail)
  {
    var text := head + tail;
    assert z[..|head|] == head by {
      assert text[..|head|] == head;
      if |z| < |text| {
        assert z == text[..|z|];
      } else {
        assert z[..|text|] == text;
      }
    }
    assert z == head + z[|head|..];
    DropCommon(head, z[|head|..], tail);
  }

  lemma FieldOf(name: string, text: string)
    requires GlueName(name)
    ensures ParseField(Glue, name + ":" + text) == FieldWith(name, Parse(Glue, text))
  {
    SplitOnceConcat(name, ':', text);
    TrimTrimmed(name);
  }

  /** A struct body near the printed one that reads as the same fields is the printed one, cut at its commas. */
  lemma {:induction false} MembersNear(members: seq<Member>, s: string, limit: nat)
    requires NamedMembers(members) && LowerCaseMembers(members) && Lower(s) && |s| <= limit
    requires Near(s, Join(RenderMembers(members), ","))
    requires ParseFields(Glue, AnglePieces(s, [], 0), limit) == Ok(DenoteMembers(Glue, members))
    ensures s == Join(RenderMembers(members), ",") && MembersCut(members)
    ensures FieldsRead(members)
    decreases members, 1
  {
    var c := FirstCut(s, [], 0);
    if members == [] {
      ParseFieldsSize(AnglePieces(s, [], 0), limit);
      NothingNear(s, c);
      return;
    }
    FirstPiece(members, s, limit, c);
    FirstMember(members, s, c);
    if c < |s| {
      var tail := s[c + 1..];
      TailOf(s, c, RenderMember(members[0]));
      RestNear(members, s, tail);
      MembersNear(members[1..], tail, limit);
      MembersCons(members, s, tail);
    } else {
      assert s[..c] == s;
      LastMember(members, s);
    }
  }

  lemma TailOf(s: string, c: nat, first: string)
    requires c < |s| && s[..c] == first && s[c] == ',' && Lower(s)
    ensures s == first + "," + s[c + 1..] && Lower(s[c + 1..])
  {
    LowerSuffix(s, c + 1);
  }

  lemma MembersCons(members: seq<Member>, s: string, tail: string)
    requires |members| > 1 && s == RenderMember(members[0]) + "," + tail
    requires tail == Join(RenderMembers(members[1..]), ",") && AngleRun(0, RenderMember(members[0])) == Some(0)
    requires MembersCut(members[1..]) && FieldsRead(members[1..])
    requires Parse(Glue, Render(members[0].shape)) == Ok(Denote(Glue, members[0].shape))
    ensures s == Join(RenderMembers(members), ",") && MembersCut(members) && FieldsRead(members)
  {
    JoinStart(members);
  }

  /** The first piece is the first member, and its type reads as itself. */
  lemma {:induction false} FirstMember(members: seq<Member>, s: string, c: nat)
    requires members != [] && NamedMembers(members) && LowerCaseMembers(members) && Lower(s)
    requires Near(s, Join(RenderMembers(members), ",")) && c <= |s| && (c < |s| ==> s[c] == ',')
    requires ParseField(Glue, Trim(s[..c])) == Ok(PlainField(members[0].name, Denote(Glue, members[0].shape), true))
    ensures s[..c] == RenderMember(members[0])
    ensures Parse(Glue, Render(members[0].shape)) == Ok(Denote(Glue, members[0].shape))
    decreases members, 0
  {
    var first := members[0];
    JoinStart(members);
    FirstPieceOff(s, Join(RenderMembers(members), ","), RenderMember(first), c);
    LowerPrefix(s, s[..c]);
    if Off(s[..c], RenderMember(first)) {
      FieldOffIsOther(first, s[..c]);
    } else {
      FieldReads(first, s[..c]);
    }
  }

  lemma {:induction false} ParseFieldsSize(parts: seq<string>, limit: nat)
    requires forall i :: 0 <= i < |parts| ==> |parts[i]| <= limit
    ensures var r := ParseFields(Glue, parts, limit); r.Ok? ==> |r.value| == |parts|
    decreases |parts|
  {
    if parts != [] {
      ParseFieldsSize(parts[1..], limit);
    }
  }

  /** Every member's type text reads as the member's type. */
  predicate FieldsRead(members: seq<Member>)
    decreases members, 0
  {
    members == [] ||
    (Parse(Glue, Render(members[0].shape)) == Ok(Denote(Glue, members[0].shape)) && FieldsRead(members[1..]))
  }

  predicate MembersCut(members: seq<Member>) {
    members == [] || (MemberKept(members[0], |members| == 1) && MembersCut(members[1..]))
  }

  lemma NothingNear(s: string, c: nat)
    requires Near(s, "") && c <= |s| && CutAt(s, [], 0, c) && AnglePieces(s, [], 0) == []
    ensures s == ""
  {
    if s != "" {
      assert [] + s == s;
      TrimStartKeeps(s, '>');
      TrimEndKeeps(TrimStart(s), '>');
    }
  }

  lemma FirstPiece(members: seq<Member>, s: string, limit: nat, c: nat)
    requires members != [] && |s| <= limit && c <= |s| && CutAt(s, [], 0, c)
    requires ParseFields(Glue, AnglePieces(s, [], 0), limit) == Ok(DenoteMembers(Glue, members))
    ensures ParseField(Glue, Trim(s[..c])) == Ok(PlainField(members[0].name, Denote(Glue, members[0].shape), true))
    ensures c < |s| ==>
              ParseFields(Glue, AnglePieces(s[c + 1..], [], 0), limit) == Ok(DenoteMembers(Glue, members[1..]))
    ensures c == |s| ==> |members| == 1
  {
    var pieces := AnglePieces(s, [], 0);
    var more := if c < |s| then AnglePieces(s[c + 1..], [], 0) else [];
    assert [] + s[..c] == s[..c] && [] + s == s;
    ParseFieldsSize(pieces, limit);
    assert c == |s| ==> s[..c] == s;
    assert pieces == [Trim(s[..c])] + more;
    ParseFieldsCons(Glue, Trim(s[..c]), more, limit);
    FirstOfFields(ParseField(Glue, Trim(s[..c])), ParseFields(Glue, more, limit), members);
    ParseFieldsSize(more, limit);
  }

  lemma FirstOfFields(f: Result<Field>, fs: Result<seq<Field>>, members: seq<Member>)
    requires members != [] && Cons(f, fs) == Ok(DenoteMembers(Glue, members))
    ensures f == Ok(PlainField(members[0].name, Denote(Glue, members[0].shape), true))
    ensures fs == Ok(DenoteMembers(Glue, members[1..]))
  {
    var all := DenoteMembers(Glue, members);
    assert all == [f.value] + fs.value;
    assert all[0] == f.value && all[1..] == fs.value;
    assert all[1..] == DenoteMembers(Glue, members[1..]);
  }

  lemma JoinStart(members: seq<Member>)
    requires members != []
    ensures var body, first := Join(RenderMembers(members), ","), RenderMember(members[0]);
            if |members| == 1 then body == first
            else |first| < |body| && body[..|first|] == first && body[|first|] == ',' &&
                 body == first + "," + Join(RenderMembers(members[1..]), ",")
  {
    var parts := RenderMembers(members);
    assert parts[1..] == RenderMembers(members[1..]);
  }

  lemma FieldReads(m: Member, q: string)
    requires GlueName(m.name) && q == RenderMember(m)
    ensures ParseField(Glue, Trim(q)) == FieldWith(m.name, Parse(Glue, Render(m.shape)))
  {
    var text := Render(m.shape);
    RenderTrimmed(m.shape);
    assert q[|q| - 1] == text[|text| - 1];
    assert q[0] == if m.name == [] then ':' else m.name[0];
    TrimTrimmed(q);
    FieldOf(m.name, text);
  }

  lemma RestNear(members: seq<Member>, s: string, tail: string)
    requires members != [] && Near(s, Join(RenderMembers(members), ",")) && s == RenderMember(members[0]) + "," + tail
    ensures |members| > 1 && Near(tail, Join(RenderMembers(members[1..]), ","))
  {
    var first, body := RenderMember(members[0]), Join(RenderMembers(members), ",");
    JoinStart(members);
    assert s[|first|] == ',';
    if |members| > 1 {
      var rest := Join(RenderMembers(members[1..]), ",");
      if s == body {
        assert tail == s[|first| + 1..] && rest == body[|first| + 1..];
      } else {
        assert s == (first + ",") + tail && body == (first + ",") + rest;
        DropCommonClose(first + ",", tail, rest);
      }
    }
  }

  lemma LastMember(members: seq<Member>, s: string)
    requires |members| == 1 && s == RenderMember(members[0]) && AngleRun(0, s).Some?
    requires Parse(Glue, Render(members[0].shape)) == Ok(Denote(Glue, members[0].shape))
    ensures s == Join(RenderMembers(members), ",") && MembersCut(members) && FieldsRead(members)
  {
    assert members[1..] == [];
  }

  // Reading back exactly

  /** A rendered shape that reads as itself is cut at its commas only. */
  lemma {:induction false} ReadIsKept(x: Shape)
    requires Named(x) && LowerCase(x) && Parse(Glue, Render(x)) == Ok(Denote(Glue, x))
    ensures Kept(x)
    decreases x, 1
  {
    ParseRendered(Glue, x);
    match x
    case Word(_) =>
    case Decimal(_, _) =>
    case ArrayOf(element) =>
      ParseEnclosed(Glue, "array<", Render(element));
      ReadIsKept(element);
    case MapOfShapes(key, value) =>
      MapReads(key, value);
      ReadIsKept(key);
      ReadIsKept(value);
    case StructOf(members) =>
      StructReads(members);
      ReadAreKept(members);
  }

  lemma {:induction false} MapReads(key: Shape, value: Shape)
    requires var x := MapOfShapes(key, value);
             Named(x) && LowerCase(x) && ParseLowered(Glue, Render(x)) == Ok(Denote(Glue, x))
    ensures AngleRun(0, Render(key)) == Some(0)
    ensures Parse(Glue, Render(key)) == Ok(Denote(Glue, key)) && Parse(Glue, Render(value)) == Ok(Denote(Glue, value))
  {
    var body := Render(key) + "," + Render(value);
    ParseMapText(Glue, body);
    BodyLower("map<", body, MapOfShapes(key, value));
    MapBodyNear(key, value, body);
  }

  lemma {:induction false} StructReads(members: seq<Member>)
    requires var x := StructOf(members);
             Named(x) && LowerCase(x) && ParseLowered(Glue, Render(x)) == Ok(Denote(Glue, x))
    ensures MembersCut(members) && FieldsRead(members)
  {
    var body := Join(RenderMembers(members), ",");
    ParseEnclosed(Glue, "struct<", body);
    BodyLower("struct<", body, StructOf(members));
    MembersNear(members, body, |body|);
  }

  lemma BodyLower(open: string, body: string, x: Shape)
    requires LowerCase(x) && Render(x) == open + body + ">"
    ensures Lower(body)
  {
    RenderLower(x);
    LowerCaseFixed(x);
    LowerSlice(Render(x), |open|, |open| + |body|);
    assert Render(x)[|open|..|open| + |body|] == body;
  }

  lemma {:induction false} ReadAreKept(members: seq<Member>)
    requires NamedMembers(members) && LowerCaseMembers(members) && MembersCut(members) && FieldsRead(members)
    ensures MembersKept(members)
    decreases members, 0
  {
    if members != [] {
      ReadIsKept(members[0].shape);
      ReadAreKept(members[1..]);
    }
  }

  /** And one that is cut at its commas only reads as itself. */
  lemma {:induction false} KeptIsRead(x: Shape)
    requires Named(x) && LowerCase(x) && Kept(x)
    ensures Parse(Glue, Render(x)) == Ok(Denote(Glue, x))
    decreases x, 1
  {
    ParseRendered(Glue, x);
    match x
    case Word(keyword) => ParseWord(Glue, keyword);
    case Decimal(precision, scale) => ParseDecimalText(Glue, precision, scale);
    case ArrayOf(element) =>
      KeptIsRead(element);
      ReadArray(element);
    case MapOfShapes(key, value) =>
      KeptIsRead(key);
      KeptIsRead(value);
      ParseMapText(Glue, Render(key) + "," + Render(value));
      KeptMapIsRead(key, value);
    case StructOf(members) =>
      KeptAreRead(members, |Join(RenderMembers(members), ",")|);
      ReadStruct(members);
  }

  lemma ReadArray(element: Shape)
    requires Parse(Glue, Render(element)) == Ok(Denote(Glue, element))
    ensures ParseLowered(Glue, Render(ArrayOf(element))) == Ok(Denote(Glue, ArrayOf(element)))
  {
    ParseEnclosed(Glue, "array<", Render(element));
  }

  lemma ReadStruct(members: seq<Member>)
    requires var body := Join(RenderMembers(members), ",");
             ParseFields(Glue, AnglePieces(body, [], 0), |body|) == Ok(DenoteMembers(Glue, members))
    ensures ParseLowered(Glue, Render(StructOf(members))) == Ok(Denote(Glue, StructOf(members)))
  {
    ParseEnclosed(Glue, "struct<", Join(RenderMembers(members), ","));
  }

  lemma KeptMapIsRead(key: Shape, value: Shape)
    requires AngleRun(0, Render(key)) == Some(0)
    requires Parse(Glue, Render(key)) == Ok(Denote(Glue, key)) && Parse(Glue, Render(value)) == Ok(Denote(Glue, value))
    ensures ParseMapBody(Glue, Render(key) + "," + Render(value)) == Ok(Denote(Glue, MapOfShapes(key, value)))
  {
    MapTextsRead(Render(key), Render(value), Denote(Glue, key), Denote(Glue, value));
  }

  lemma MapTextsRead(k: string, v: string, kt: DataType, vt: DataType)
    requires AngleRun(0, k) == Some(0) && Parse(Glue, k) == Ok(kt) && Parse(Glue, v) == Ok(vt)
    ensures ParseMapBody(Glue, k + "," + v) == Ok(MapOf(Glue, kt, vt))
  {
    CutBetween(k, v, [], 0);
    assert [] + k == k;
    ParseTrimmed(k);
    ParseTrimmed(v);
  }

  lemma {:induction false} KeptAreRead(members: seq<Member>, limit: nat)
    requires NamedMembers(members) && LowerCaseMembers(members) && MembersKept(members)
    requires |Join(RenderMembers(members), ",")| <= limit
    ensures ParseFields(Glue, AnglePieces(Join(RenderMembers(members), ","), [], 0), limit)
            == Ok(DenoteMembers(Glue, members))
    decreases members, 0
  {
    if members != [] {
      var first, rest := RenderMember(members[0]), members[1..];
      KeptIsRead(members[0].shape);
      FieldReads(members[0], first);
      JoinStart(members);
      assert [] + first == first;
      if rest == [] {
        MemberNotBlank(members[0]);
        CutNowhere(first, [], 0);
        ParseFieldsCons(Glue, Trim(first), [], limit);
      } else {
        var more := Join(RenderMembers(rest), ",");
        CutBetween(first, more, [], 0);
        KeptAreRead(rest, limit);
        ParseFieldsCons(Glue, Trim(first), AnglePieces(more, [], 0), limit);
      }
    }
  }

  lemma MemberNotBlank(m: Member)
    ensures Trim(RenderMember(m)) != []
  {
    var s := RenderMember(m);
    assert s[|m.name|] == ':';
    TrimStartKeeps(s, ':');
    TrimEndKeeps(TrimStart(s), ':');
  }

  // Types and texts

  lemma {:induction false} LowerRun(d: int, s: string)
    ensures AngleRun(d, ToLower(s)) == AngleRun(d, s)
    decreases |s|
  {
    if s != [] {
      assert ToLower(s)[0] == LowerChar(s[0]) && ToLower(s)[1..] == ToLower(s[1..]);
      assert AngleStep(d, LowerChar(s[0])) == AngleStep(d, s[0]);
      LowerRun(AngleStep(d, s[0]), s[1..]);
    }
  }

  lemma LowerGlueName(name: string)
    ensures GlueName(ToLower(name)) == GlueName(name)
  {
    if name != [] {
      assert ToLower(name)[0] == LowerChar(name[0]) && ToLower(name)[|name| - 1] == LowerChar(name[|name| - 1]);
    }
    assert ':' in ToLower(name) <==> ':' in name by {
      assert forall i :: 0 <= i < |name| ==> (ToLower(name)[i] == ':' <==> name[i] == ':');
      if ':' in name {
        var i :| 0 <= i < |name| && name[i] == ':';
        assert ToLower(name)[i] == ':';
      }
    }
  }

  /** Case matters neither to names nor to cuts. */
  lemma {:induction false} LowerShapeSame(x: Shape)
    ensures Named(LowerShape(x)) == Named(x) && Kept(LowerShape(x)) == Kept(x)
    decreases x, 1
  {
    match x
    case Word(_) =>
    case Decimal(_, _) =>
    case ArrayOf(element) => LowerShapeSame(element);
    case MapOfShapes(key, value) =>
      LowerShapeSame(key);
      LowerShapeSame(value);
      RenderLower(key);
      LowerRun(0, Render(key));
    case StructOf(members) => LowerMembersSame(members);
  }

  lemma {:induction false} LowerMembersSame(members: seq<Member>)
    ensures NamedMembers(LowerMembers(members)) == NamedMembers(members)
    ensures MembersKept(LowerMembers(members)) == MembersKept(members)
    decreases members, 0
  {
    if members != [] {
      var lower := LowerMembers(members);
      LowerGlueName(members[0].name);
      LowerShapeSame(members[0].shape);
      LowerMembersSame(members[1..]);
      assert lower[1..] == LowerMembers(members[1..]);
      LowerMemberRun(members[0], lower[0]);
    }
  }

  lemma LowerMemberRun(m: Member, lower: Member)
    requires lower == Member(ToLower(m.name), LowerShape(m.shape))
    ensures AngleRun(0, RenderMember(lower)) == AngleRun(0, RenderMember(m))
  {
    RenderLower(m.shape);
    LowerPair(m.name, ":", Render(m.shape));
    LowerRun(0, RenderMember(m));
  }

  /** The type's names are as Glue would cut them, and its text is cut where the printer put its commas. */
  predicate GlueKeeps(t: DataType) {
    ShapeOf(Glue, t).Ok? && Named(ShapeOf(Glue, t).value) && Kept(ShapeOf(Glue, t).value)
  }

  lemma {:induction false} ImageNamed(t: DataType)
    requires ShapeOf(Glue, t).Ok? && InImage(Glue, Normal(Glue, t))
    ensures Named(ShapeOf(Glue, t).value)
    decreases t, 1
  {
    if t.IsList() {
      ImageNamed(t.item.dataType);
    } else if t.Struct? {
      FieldsNamed(t.fields);
    } else if t.IsKeyValueMap() {
      NormalOfMap(Glue, t);
      ImageNamed(t.entries.dataType.fields[0].dataType);
      ImageNamed(t.entries.dataType.fields[1].dataType);
    } else if t.Dictionary? {
      ImageNamed(t.values);
    }
  }

  lemma {:induction false} FieldsNamed(fields: seq<Field>)
    requires MembersOf(Glue, fields).Ok? && FieldsInImage(Glue, NormalFields(Glue, fields))
    ensures NamedMembers(MembersOf(Glue, fields).value)
    decreases fields, 0
  {
    if fields != [] {
      assert NormalFields(Glue, fields)[1..] == NormalFields(Glue, fields[1..]);
      assert MembersOf(Glue, fields).value[1..] == MembersOf(Glue, fields[1..]).value;
      LowerGlueName(fields[0].name);
      ImageNamed(fields[0].dataType);
      FieldsNamed(fields[1..]);
    }
  }

  lemma ShapeReads(x: Shape)
    requires Named(x)
    ensures Parse(Glue, Render(x)) == Ok(Denote(Glue, LowerShape(x))) <==> Kept(x)
  {
    var y := LowerShape(x);
    RenderLower(x);
    ParseIgnoresCase(Glue, Render(x));
    LowerShapeSame(x);
    LowerShapeIsLower(x);
    if Kept(x) {
      KeptIsRead(y);
    } else if Parse(Glue, Render(y)) == Ok(Denote(Glue, y)) {
      ReadIsKept(y);
    }
  }

  /**
  A type Glue's printer accepts reads back as its normal form if and only if its names are
  colon-free and trimmed and no comma of its text is at angle depth zero but those between
  fields and between key and value, where the depth is zero.
  */
  lemma GlueReadsBackExactly(t: DataType)
    requires Print(Glue, t).Ok?
    ensures Parse(Glue, Print(Glue, t).value) == Ok(Normal(Glue, t)) <==> GlueKeeps(t)
  {
    PrintIsRender(Glue, t);
    ShapeDenotes(Glue, t);
    var x := ShapeOf(Glue, t).value;
    if Parse(Glue, Print(Glue, t).value) == Ok(Normal(Glue, t)) {
      ParseInImage(Glue, Print(Glue, t).value);
      ImageNamed(t);
    }
    if Named(x) {
      ShapeReads(x);
    }
  }

  /** With tame names only a decimal's own comma is cut elsewhere. */
  lemma TameKeeps(t: DataType)
    requires Print(Glue, t).Ok? && TameNames(Glue, t)
    ensures GlueKeeps(t) <==> Parseable(Glue, t)
  {
    GlueReadsBackExactly(t);
    GlueParseInvertsPrint(t);
  }

  /**
  A text Glue's parser accepts: its type can always be written, and comes back as it was first
  read if and only if its text is cut where the printer put its commas.
  */
  lemma GlueReadWriteRead(text: string)
    requires Parse(Glue, text).Ok?
    ensures var t := Parse(Glue, text).value;
            Print(Glue, t).Ok? && (Parse(Glue, Print(Glue, t).value) == Ok(t) <==> GlueKeeps(t))
  {
    var t := Parse(Glue, text).value;
    ParseInImage(Glue, text);
    ImagePrints(Glue, t);
    ImageStable(Glue, t);
    GlueReadsBackExactly(t);
  }
}
