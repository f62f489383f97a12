/** The loops of the two parsers, proved against the functions the theorems are about. */
module HiveLoops {
  import opened Arrow
  import opened Text
  import opened TopLevel
  import opened HiveSyntax

  function PrependFields(fields: seq<Field>, r: Result<seq<Field>>): Result<seq<Field>> {
    match r
    case Err(e) => Err(e)
    case Ok(more) => Ok(fields + more)
  }

  /** One more field in front of the fields still to be parsed. */
  lemma {:induction false} ParseOne(dialect: Dialect, fields: seq<Field>, piece: string, rest: seq<string>, limit: nat)
    requires |piece| <= limit && forall i :: 0 <= i < |rest| ==> |rest[i]| <= limit
    ensures PrependFields(fields, ParseFields(dialect, [piece] + rest, limit)) ==
            match ParseField(dialect, piece)
            case Err(e) => Err(e)
            case Ok(f) => PrependFields(fields + [f], ParseFields(dialect, rest, limit))
  {
    assert ([piece] + rest)[1..] == rest;
    var f, more := ParseField(dialect, piece), ParseFields(dialect, rest, limit);
    if f.Ok? && more.Ok? {
      assert fields + ([f.value] + more.value) == fields + [f.value] + more.value;
    }
  }

  lemma PrependNothing(r: Result<seq<Field>>)
    ensures PrependFields([], r) == r
  {
    if r.Ok? {
      assert [] + r.value == r.value;
    }
  }

  /** The Metastore's struct parser: split first, then one field per piece. */
  method ParseStructBody(inner: string) returns (r: Result<seq<Field>>)
    ensures r == match Pieces(inner)
                 case Err(e) => Err(e)
                 case Ok(parts) => ParseFields(Hive, parts, |inner|)
  {
    var pieces := SplitTopLevel(inner);
    if pieces.Err? {
      return Err(pieces.error);
    }
    var parts, fields := pieces.value, [];
    var i := 0;
    assert parts[0..] == parts;
    PrependNothing(ParseFields(Hive, parts, |inner|));
    while i < |parts|
      invariant 0 <= i <= |parts|
      invariant ParseFields(Hive, parts, |inner|) == PrependFields(fields, ParseFields(Hive, parts[i..], |inner|))
    {
      assert parts[i..] == [parts[i]] + parts[i + 1..];
      ParseOne(Hive, fields, parts[i], parts[i + 1..], |inner|);
      var f := ParseField(Hive, parts[i]);
      if f.Err? {
        return Err(f.error);
      }
      fields := fields + [f.value];
      i := i + 1;
    }
    assert fields + [] == fields;
    return Ok(fields);
  }

  /** The fields still to come at position `i`, when the current field began at `start`. */
  ghost function Left(inner: string, i: nat, start: nat, depth: int): Result<seq<Field>>
    requires start <= i <= |inner|
  {
    ParseFields(Glue, AnglePieces(inner[i..], inner[start..i], depth), |inner|)
  }

  /** Glue's struct parser: one pass that parses a field at each comma of angle depth zero. */
  method ParseStructBodyGlue(inner: string) returns (r: Result<seq<Field>>)
    ensures r == ParseFields(Glue, FieldTexts(Glue, inner).value, |inner|)
  {
    if inner == [] {
      return Ok([]);
    }
    var fields, start, depth := [], 0, 0;
    var i := 0;
    ghost var all := ParseFields(Glue, FieldTexts(Glue, inner).value, |inner|);
    LeftAtStart(inner);
    while i < |inner|
      invariant 0 <= start <= i <= |inner|
      invariant all == PrependFields(fields, Left(inner, i, start, depth))
    {
      var c := inner[i];
      if c == ',' && depth == 0 {
        LeftAtComma(fields, inner, i, start);
        var f := ParseField(Glue, Trim(inner[start..i]));
        if f.Err? {
          return Err(f.error);
        }
        fields := fields + [f.value];
        start := i + 1;
      } else {
        LeftAtOther(inner, i, start, depth);
        if c == '<' {
          depth := depth + 1;
        } else if c == '>' {
          depth := depth - 1;
        }
      }
      i := i + 1;
    }
    LeftAtEnd(fields, inner, start, depth);
    var last := Trim(inner[start..]);
    if last != [] {
      var f := ParseField(Glue, last);
      if f.Err? {
        return Err(f.error);
      }
      fields := fields + [f.value];
    }
    return Ok(fields);
  }

  lemma LeftAtStart(inner: string)
    requires inner != []
    ensures ParseFields(Glue, FieldTexts(Glue, inner).value, |inner|) == PrependFields([], Left(inner, 0, 0, 0))
  {
    assert inner[0..] == inner && inner[0..0] == [];
    PrependNothing(Left(inner, 0, 0, 0));
  }

  /** The splitter's step at position `i`. */
  lemma {:induction false} GlueNext(inner: string, i: nat, start: nat, depth: int)
    requires start <= i < |inner|
    ensures AnglePieces(inner[i..], inner[start..i], depth) ==
            if inner[i] == ',' && depth == 0 then [Trim(inner[start..i])] + AnglePieces(inner[i + 1..], [], 0)
            else AnglePieces(inner[i + 1..], inner[start..i + 1], AngleStep(depth, inner[i]))
  {
    var rest, current := inner[i..], inner[start..i];
    assert rest != [] && rest[0] == inner[i] && rest[1..] == inner[i + 1..];
    assert current + [inner[i]] == inner[start..i + 1];
  }

  lemma {:induction false} LeftAtOther(inner: string, i: nat, start: nat, depth: int)
    requires start <= i < |inner| && !(inner[i] == ',' && depth == 0)
    ensures Left(inner, i, start, depth) == Left(inner, i + 1, start, AngleStep(depth, inner[i]))
  {
    GlueNext(inner, i, start, depth);
  }

  /** At a separating comma the text since the last one is parsed as a field. */
  lemma {:induction false} LeftAtComma(fields: seq<Field>, inner: string, i: nat, start: nat)
    requires start <= i < |inner| && inner[i] == ','
    ensures PrependFields(fields, Left(inner, i, start, 0)) ==
            match ParseField(Glue, Trim(inner[start..i]))
            case Err(e) => Err(e)
            case Ok(f) => PrependFields(fields + [f], Left(inner, i + 1, i + 1, 0))
  {
    GlueNext(inner, i, start, 0);
    assert inner[i + 1..i + 1] == [];
    ParseOne(Glue, fields, Trim(inner[start..i]), AnglePieces(inner[i + 1..], [], 0), |inner|);
  }

  /** What follows the last comma is one more field, unless it is blank. */
  lemma {:induction false} LeftAtEnd(fields: seq<Field>, inner: string, start: nat, depth: int)
    requires start <= |inner|
    ensures PrependFields(fields, Left(inner, |inner|, start, depth)) ==
            if Trim(inner[start..]) == [] then Ok(fields)
            else
              match ParseField(Glue, Trim(inner[start..]))
              case Err(e) => Err(e)
              case Ok(f) => Ok(fields + [f])
  {
    assert inner[|inner|..] == [] && inner[start..|inner|] == inner[start..];
    var last := Trim(inner[start..]);
    assert [last] + [] == [last] && fields + [] == fields;
    ParseOne(Glue, fields, last, [], |inner|);
    assert forall f: Field :: fields + [f] + [] == fields + [f];
  }

  /** Glue's separator of a map's key and value. */
  method FindTypeSeparator(s: string) returns (r: Option<nat>)
    ensures AngleSplit(s, [], 0) ==
            match r
            case None => None
            case Some(at) => if at < |s| then Some((s[..at], s[at + 1..])) else None
    ensures r.Some? ==> r.value < |s|
  {
    var depth, i := 0, 0;
    assert s[0..] == s;
    while i < |s|
      invariant 0 <= i <= |s|
      invariant AngleSplit(s, [], 0) == AngleSplit(s[i..], s[..i], depth)
    {
      var c := s[i];
      assert s[i..][1..] == s[i + 1..] && s[..i] + [c] == s[..i + 1];
      if c == '<' {
        depth := depth + 1;
      } else if c == '>' {
        depth := depth - 1;
      } else if c == ',' && depth == 0 {
        return Some(i);
      }
      i := i + 1;
    }
    return None;
  }
}
