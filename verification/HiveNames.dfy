/**
Field names the Metastore splitter cannot tell apart from their surroundings.

A parsed name is the start of a piece, so its brackets never close more than they open. If
it leaves one open, everything printed after it is read at a depth that never comes back to
the top level, and the splitter refuses the text.
*/
module HiveNames {
  import opened Arrow
  import opened Text
  import opened TopLevel
  import opened HiveSyntax
  import opened HiveShape
  import opened HiveShapeParse

  /** A name as the Metastore parser cuts it: no colon, no leading blank, the start of some piece. */
  predicate CutName(name: string) {
    && ':' !in name
    && (name == [] || !IsWhitespace(name[0]))
    && Absorb(true, TOP, name).Some?
  }

  predicate CutShape(x: Shape)
    decreases x, 1
  {
    match x
    case Word(_) | Decimal(_, _) => true
    case ArrayOf(element) => CutShape(element)
    case MapOfShapes(key, value) => CutShape(key) && CutShape(value)
    case StructOf(members) => CutMembers(members)
  }

  predicate CutMembers(members: seq<Member>)
    decreases members, 0
  {
    members == [] || (CutName(members[0].name) && CutShape(members[0].shape) && CutMembers(members[1..]))
  }

  // The depth after a rendered shape

  /** At least as deep as before. */
  predicate Above(e: Depth, d: Depth) {
    e.angle >= d.angle && e.paren >= d.paren
  }

  /** One stretch of text after another. */
  lemma Through(d: Depth, a: string, e: Depth, b: string, f: Depth)
    requires Absorb(true, d, a) == Some(e) && Absorb(true, e, b) == Some(f)
    ensures Absorb(true, d, a + b) == Some(f)
  {
    AbsorbConcat(true, d, a, b);
  }

  lemma OneStep(d: Depth, c: string, e: Depth)
    requires |c| == 1 && Step(true, d, c[0]) == Some(e)
    ensures Absorb(true, d, c) == Some(e)
  {
    assert c[1..] == [];
    assert Absorb(true, e, []) == Some(e);
  }

  lemma Opening(d: Depth, head: string)
    requires LowerWord(head)
    ensures Absorb(true, d, head + "<") == Some(d.(angle := d.angle + 1))
  {
    WordShape(head);
    PlainNeutral(true, d, head);
    OneStep(d, "<", d.(angle := d.angle + 1));
    Through(d, head, d, "<", d.(angle := d.angle + 1));
  }

  lemma AngledDrifts(d: Depth, head: string, open: string, body: string, e: Depth) returns (f: Depth)
    requires LowerWord(head) && open == head + "<"
    requires var inside := d.(angle := d.angle + 1); Absorb(true, inside, body) == Some(e) && Above(e, inside)
    ensures Absorb(true, d, open + body + ">") == Some(f) && Above(f, d)
    ensures f == d <==> e == d.(angle := d.angle + 1)
  {
    f := e.(angle := e.angle - 1);
    Opening(d, head);
    Through(d, open, d.(angle := d.angle + 1), body, e);
    OneStep(e, ">", f);
    Through(d, open + body, e, ">", f);
  }

  lemma PairDrifts(d: Depth, a: string, e: Depth, b: string, f: Depth)
    requires e != TOP
    requires Absorb(true, d, a) == Some(e) && Absorb(true, e, b) == Some(f)
    ensures Absorb(true, d, a + "," + b) == Some(f)
  {
    OneStep(e, ",", e);
    Through(d, a, e, ",", e);
    Through(d, a + ",", e, b, f);
  }

  lemma NameDrifts(name: string, d: Depth) returns (e: Depth)
    requires CutName(name)
    ensures Absorb(true, d, name + ":") == Some(e) && Above(e, d)
    ensures e == d <==> TameName(Hive, name)
  {
    var open := Absorb(true, TOP, name).value;
    e := Depth(open.angle + d.angle, open.paren + d.paren);
    AbsorbDeeper(true, TOP, name, d);
    assert Depth(TOP.angle + d.angle, TOP.paren + d.paren) == d;
    OneStep(e, ":", e);
    Through(d, name, e, ":", e);
  }

  /** Rendering a shape never lowers the depth, and keeps it exactly when every name is tame. */
  lemma {:induction false} RenderDrifts(x: Shape, d: Depth) returns (e: Depth)
    requires CutShape(x)
    ensures Absorb(true, d, Render(x)) == Some(e) && Above(e, d)
    ensures e == d <==> Tame(Hive, x)
    decreases x, 1
  {
    var inside := d.(angle := d.angle + 1);
    match x
    case Word(keyword) =>
      KeywordWord(keyword);
      PlainNeutral(true, d, KeywordText(keyword));
      return d;
    case Decimal(precision, scale) =>
      DecimalAbsorb(true, d, precision, scale);
      return d;
    case ArrayOf(element) =>
      e := RenderDrifts(element, inside);
      e := AngledDrifts(d, "array", "array<", Render(element), e);
      return;
    case MapOfShapes(key, value) =>
      var k := RenderDrifts(key, inside);
      e := RenderDrifts(value, k);
      PairDrifts(inside, Render(key), k, Render(value), e);
      e := AngledDrifts(d, "map", "map<", Render(key) + "," + Render(value), e);
      return;
    case StructOf(members) =>
      e := MembersDrift(members, inside);
      e := AngledDrifts(d, "struct", "struct<", Join(RenderMembers(members), ","), e);
      return;
  }

  lemma {:induction false} MemberDrifts(m: Member, d: Depth) returns (e: Depth)
    requires CutName(m.name) && CutShape(m.shape)
    ensures Absorb(true, d, RenderMember(m)) == Some(e) && Above(e, d)
    ensures e == d <==> TameName(Hive, m.name) && Tame(Hive, m.shape)
    decreases m.shape, 2
  {
    var named := NameDrifts(m.name, d);
    e := RenderDrifts(m.shape, named);
    Through(d, m.name + ":", named, Render(m.shape), e);
  }

  lemma {:induction false} MembersDrift(members: seq<Member>, d: Depth) returns (e: Depth)
    requires CutMembers(members) && d != TOP
    ensures Absorb(true, d, Join(RenderMembers(members), ",")) == Some(e) && Above(e, d)
    ensures e == d <==> TameMembers(Hive, members)
    decreases members, 0
  {
    if members == [] {
      return d;
    }
    var rest := members[1..];
    e := MemberDrifts(members[0], d);
    if rest == [] {
      assert RenderMembers(members) == [RenderMember(members[0])];
    } else {
      var first := e;
      e := MembersDrift(rest, first);
      MembersJoin(members);
      PairDrifts(d, RenderMember(members[0]), first, Join(RenderMembers(rest), ","), e);
    }
  }

  lemma MembersJoin(members: seq<Member>)
    requires |members| > 1
    ensures Join(RenderMembers(members), ",")
            == RenderMember(members[0]) + "," + Join(RenderMembers(members[1..]), ",")
  {
    assert RenderMembers(members)[1..] == RenderMembers(members[1..]);
  }

  // What is left open is never closed

  lemma OpenTextRefused(s: string)
    requires Absorb(true, TOP, s).Some? && Absorb(true, TOP, s).value != TOP
    ensures RawPieces(s) == Err(InvalidArgument)
  {
    SplitThrough(s, "", "", TOP);
    assert s + "" == s && "" + s == s;
  }

  lemma LaterTextRefused(first: string, rest: string)
    requires Neutral(true, first) && RawPieces(rest) == Err(InvalidArgument)
    ensures RawPieces(first + "," + rest) == Err(InvalidArgument)
  {
    assert first + "," + rest == first + ("," + rest);
    SplitThrough(first, "," + rest, "", TOP);
    assert "" + first == first && ("," + rest)[1..] == rest;
  }

  lemma {:induction false} OpenMembersRefused(members: seq<Member>)
    requires CutMembers(members) && !TameMembers(Hive, members)
    ensures RawPieces(Join(RenderMembers(members), ",")) == Err(InvalidArgument)
    decreases |members|
  {
    var first, rest := RenderMember(members[0]), members[1..];
    var e := MemberDrifts(members[0], TOP);
    if rest == [] {
      assert RenderMembers(members) == [first];
      OpenTextRefused(first);
    } else {
      MembersJoin(members);
      if e == TOP {
        OpenMembersRefused(rest);
        LaterTextRefused(first, Join(RenderMembers(rest), ","));
      } else {
        var f := MembersDrift(rest, e);
        PairDrifts(TOP, first, e, Join(RenderMembers(rest), ","), f);
        OpenTextRefused(first + "," + Join(RenderMembers(rest), ","));
      }
    }
  }

  lemma {:induction false} OpenPairRefused(key: Shape, value: Shape)
    requires CutShape(key) && CutShape(value) && !(Tame(Hive, key) && Tame(Hive, value))
    ensures RawPieces(Render(key) + "," + Render(value)) == Err(InvalidArgument)
  {
    var e := RenderDrifts(key, TOP);
    var f := RenderDrifts(value, e);
    if e == TOP {
      OpenTextRefused(Render(value));
      LaterTextRefused(Render(key), Render(value));
    } else {
      PairDrifts(TOP, Render(key), e, Render(value), f);
      OpenTextRefused(Render(key) + "," + Render(value));
    }
  }

  /** A rendered shape with an untame name, names being as a parser cuts them, is refused. */
  lemma {:induction false} OpenShapeRefused(x: Shape)
    requires CutShape(x) && LowerCase(x) && !Tame(Hive, x)
    ensures Parse(Hive, Render(x)) == Err(InvalidArgument)
    decreases x, 1
  {
    ParseRendered(Hive, x);
    match x
    case Word(_) =>
    case Decimal(_, _) =>
    case ArrayOf(element) =>
      OpenShapeRefused(element);
      ParseEnclosed(Hive, "array<", Render(element));
    case MapOfShapes(key, value) =>
      OpenPairRefused(key, value);
      ParseEnclosed(Hive, "map<", Render(key) + "," + Render(value));
    case StructOf(members) =>
      OpenMembersRefused(members);
      ParseEnclosed(Hive, "struct<", Join(RenderMembers(members), ","));
  }

  // Lower-casing names changes none of this

  lemma LowerCutName(name: string)
    ensures CutName(ToLower(name)) == CutName(name)
  {
    LowerAbsorb(true, TOP, name);
    if name != [] {
      assert ToLower(name)[0] == LowerChar(name[0]);
    }
    assert ':' in ToLower(name) <==> ':' in name by {
      forall i | 0 <= i < |name|
        ensures ToLower(name)[i] == ':' <==> name[i] == ':'
      {
      }
      if ':' in name {
        var i :| 0 <= i < |name| && name[i] == ':';
        assert ToLower(name)[i] == ':';
      }
    }
  }

  lemma {:induction false} LowerCutShape(x: Shape)
    ensures CutShape(LowerShape(x)) == CutShape(x)
    decreases x, 1
  {
    match x
    case Word(_) =>
    case Decimal(_, _) =>
    case ArrayOf(element) => LowerCutShape(element);
    case MapOfShapes(key, value) =>
      LowerCutShape(key);
      LowerCutShape(value);
    case StructOf(members) => LowerCutMembers(members);
  }

  lemma {:induction false} LowerCutMembers(members: seq<Member>)
    ensures CutMembers(LowerMembers(members)) == CutMembers(members)
    decreases members, 0
  {
    if members != [] {
      LowerCutName(members[0].name);
      LowerCutShape(members[0].shape);
      LowerCutMembers(members[1..]);
      assert LowerMembers(members)[1..] == LowerMembers(members[1..]);
    }
  }

  lemma LowerTameName(name: string)
    requires TameName(Hive, ToLower(name))
    ensures TameName(Hive, name)
  {
    LowerCutName(name);
    LowerAbsorb(true, TOP, name);
  }

  lemma {:induction false} LowerTame(x: Shape)
    requires Tame(Hive, LowerShape(x))
    ensures Tame(Hive, x)
    decreases x, 1
  {
    match x
    case Word(_) =>
    case Decimal(_, _) =>
    case ArrayOf(element) => LowerTame(element);
    case MapOfShapes(key, value) =>
      LowerTame(key);
      LowerTame(value);
    case StructOf(members) => LowerMembersAreTame(members);
  }

  lemma {:induction false} LowerMembersAreTame(members: seq<Member>)
    requires TameMembers(Hive, LowerMembers(members))
    ensures TameMembers(Hive, members)
    decreases members, 0
  {
    if members != [] {
      assert LowerMembers(members)[1..] == LowerMembers(members[1..]);
      LowerTameName(members[0].name);
      LowerTame(members[0].shape);
      LowerMembersAreTame(members[1..]);
    }
  }

  /** The same for names of any case. */
  lemma UntameRefused(x: Shape)
    requires CutShape(x) && !Tame(Hive, x)
    ensures Parse(Hive, ToLower(Render(x))) == Err(InvalidArgument)
  {
    RenderLower(x);
    LowerCutShape(x);
    LowerShapeIsLower(x);
    if Tame(Hive, LowerShape(x)) {
      LowerTame(x);
    } else {
      OpenShapeRefused(LowerShape(x));
    }
  }

  lemma {:induction false} LowerShapeIsLower(x: Shape)
    ensures LowerCase(LowerShape(x))
    decreases x, 1
  {
    match x
    case Word(_) =>
    case Decimal(_, _) =>
    case ArrayOf(element) => LowerShapeIsLower(element);
    case MapOfShapes(key, value) =>
      LowerShapeIsLower(key);
      LowerShapeIsLower(value);
    case StructOf(members) => LowerMembersAreLower(members);
  }

  lemma {:induction false} LowerMembersAreLower(members: seq<Member>)
    ensures LowerCaseMembers(LowerMembers(members))
    decreases members, 0
  {
    if members != [] {
      LowerIdempotent(members[0].name);
      LowerShapeIsLower(members[0].shape);
      LowerMembersAreLower(members[1..]);
      assert LowerMembers(members)[1..] == LowerMembers(members[1..]);
    }
  }
}
