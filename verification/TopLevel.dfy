/**
Splitting a type string at its top-level commas.

The Hive Metastore splitter tracks angle brackets and parentheses, the Glue splitter
only angle brackets; `parens` selects between the two.
*/
module TopLevel {
  import opened Arrow
  import opened Text

  datatype Depth = Depth(angle: nat, paren: nat)

  const TOP := Depth(0, 0)

  /** The depth after one character; None at a top-level comma or an unmatched closing bracket. */
  function Step(parens: bool, d: Depth, c: char): Option<Depth> {
    if c == '<' then Some(d.(angle := d.angle + 1))
    else if c == '>' then if d.angle == 0 then None else Some(d.(angle := d.angle - 1))
    else if parens && c == '(' then Some(d.(paren := d.paren + 1))
    else if parens && c == ')' then if d.paren == 0 then None else Some(d.(paren := d.paren - 1))
    else if c == ',' && d == TOP then None
    else Some(d)
  }

  /** The depth after a stretch of text that contains no top-level comma; None if it does contain one. */
  function Absorb(parens: bool, d: Depth, s: string): Option<Depth>
    decreases |s|
  {
    if s == [] then Some(d)
    else
      match Step(parens, d, s[0])
      case None => None
      case Some(e) => Absorb(parens, e, s[1..])
  }

  /** Bracket-balanced text without a top-level comma: one piece of a split. */
  predicate Neutral(parens: bool, s: string) {
    Absorb(parens, TOP, s) == Some(TOP)
  }

  lemma {:induction false} AbsorbConcat(parens: bool, d: Depth, a: string, b: string)
    ensures Absorb(parens, d, a + b) ==
            match Absorb(parens, d, a)
            case None => None
            case Some(e) => Absorb(parens, e, b)
    decreases |a|
  {
    if a == [] {
      assert a + b == b;
    } else {
      assert (a + b)[1..] == a[1..] + b;
      match Step(parens, d, a[0])
      case None =>
      case Some(e) => AbsorbConcat(parens, e, a[1..], b);
    }
  }

  lemma AbsorbNext(parens: bool, d: Depth, s: string, c: char)
    requires Absorb(parens, d, s).Some?
    ensures Absorb(parens, d, s + [c]) == Step(parens, Absorb(parens, d, s).value, c)
  {
    AbsorbConcat(parens, d, s, [c]);
    var e := Absorb(parens, d, s).value;
    if Step(parens, e, c).Some? {
      assert Absorb(parens, e, [c]) == Absorb(parens, Step(parens, e, c).value, [c][1..]);
    }
  }

  /** What is absorbed at some depth is absorbed at every greater depth. */
  lemma {:induction false} AbsorbDeeper(parens: bool, d: Depth, s: string, more: Depth)
    requires Absorb(parens, d, s).Some?
    ensures var e := Absorb(parens, d, s).value;
            Absorb(parens, Depth(d.angle + more.angle, d.paren + more.paren), s)
            == Some(Depth(e.angle + more.angle, e.paren + more.paren))
    decreases |s|
  {
    if s != [] {
      AbsorbDeeper(parens, Step(parens, d, s[0]).value, s[1..], more);
    }
  }

  lemma NeutralAnywhere(parens: bool, d: Depth, s: string)
    requires Neutral(parens, s)
    ensures Absorb(parens, d, s) == Some(d)
  {
    AbsorbDeeper(parens, TOP, s, d);
  }

  /** Text without commas and without the brackets that count. */
  predicate Plain(parens: bool, s: string) {
    forall i :: 0 <= i < |s| ==>
      s[i] != '<' && s[i] != '>' && s[i] != ',' && (parens ==> s[i] != '(' && s[i] != ')')
  }

  lemma {:induction false} PlainNeutral(parens: bool, d: Depth, s: string)
    requires Plain(parens, s)
    ensures Absorb(parens, d, s) == Some(d)
    decreases |s|
  {
    if s != [] {
      PlainNeutral(parens, d, s[1..]);
    }
  }

  /** `head<body>` with a bracket-free head. */
  lemma AbsorbAngled(parens: bool, d: Depth, head: string, body: string)
    requires Plain(parens, head)
    requires var e := d.(angle := d.angle + 1); Absorb(parens, e, body) == Some(e)
    ensures Absorb(parens, d, head + "<" + body + ">") == Some(d)
  {
    var e := d.(angle := d.angle + 1);
    PlainNeutral(parens, d, head);
    AbsorbConcat(parens, d, head, "<");
    AbsorbConcat(parens, d, head + "<", body);
    AbsorbConcat(parens, d, head + "<" + body, ">");
    assert Absorb(parens, e, ">") == Absorb(parens, d, ">"[1..]);
  }

  /** Neutral pieces joined by commas are absorbed anywhere below the top level. */
  lemma {:induction false} AbsorbJoin(parens: bool, d: Depth, parts: seq<string>)
    requires d != TOP
    requires forall i :: 0 <= i < |parts| ==> Neutral(parens, parts[i])
    ensures Absorb(parens, d, Join(parts, ",")) == Some(d)
  {
    if |parts| > 0 {
      NeutralAnywhere(parens, d, parts[0]);
    }
    if |parts| > 1 {
      AbsorbJoin(parens, d, parts[1..]);
      AbsorbConcat(parens, d, parts[0], ",");
      AbsorbConcat(parens, d, parts[0] + ",", Join(parts[1..], ","));
    }
  }

  // split_top_level

  function Prepend(parts: seq<string>, r: Result<seq<string>>): Result<seq<string>> {
    match r
    case Err(e) => Err(e)
    case Ok(more) => Ok(parts + more)
  }

  lemma PrependTwice(a: seq<string>, b: seq<string>, r: Result<seq<string>>)
    ensures Prepend(a, Prepend(b, r)) == Prepend(a + b, r)
  {
    if r.Ok? {
      assert a + (b + r.value) == a + b + r.value;
    }
  }

  lemma PrependNothing(r: Result<seq<string>>)
    ensures Prepend([], r) == r
  {
    if r.Ok? {
      assert [] + r.value == r.value;
    }
  }

  /** The pieces of `rest`, the first of them continuing the text `current` read at depth `d`. */
  function SplitFrom(rest: string, current: string, d: Depth): (r: Result<seq<string>>)
    ensures r.Ok? ==> forall i :: 0 <= i < |r.value| ==> |r.value[i]| <= |current| + |rest|
    decreases |rest|
  {
    if rest == [] then
      if d != TOP then Err(InvalidArgument)
      else if current == [] then Ok([])
      else Ok([current])
    else if rest[0] == ',' && d == TOP then
      Prepend([current], SplitFrom(rest[1..], [], TOP))
    else
      match Step(true, d, rest[0])
      case None => Err(InvalidArgument)
      case Some(e) => SplitFrom(rest[1..], current + [rest[0]], e)
  }

  /** The untrimmed top-level pieces; an empty last piece is dropped. */
  function RawPieces(input: string): (r: Result<seq<string>>)
    ensures r.Ok? ==> forall i :: 0 <= i < |r.value| ==> |r.value[i]| <= |input|
  {
    SplitFrom(input, [], TOP)
  }

  function TrimAll(parts: seq<string>): (r: seq<string>)
    ensures |r| == |parts|
    ensures forall i :: 0 <= i < |r| ==> r[i] == Trim(parts[i])
  {
    seq(|parts|, i requires 0 <= i < |parts| => Trim(parts[i]))
  }

  function Pieces(input: string): (r: Result<seq<string>>)
    ensures r.Ok? ==> forall i :: 0 <= i < |r.value| ==> |r.value[i]| <= |input|
  {
    var raw :- RawPieces(input);
    Ok(TrimAll(raw))
  }

  /** The splitting loop computes the top-level pieces. */
  method SplitTopLevel(input: string) returns (r: Result<seq<string>>)
    ensures r == Pieces(input)
  {
    var angle, paren, start, parts := 0, 0, 0, [];
    ghost var raw: seq<string> := [];
    var idx := 0;
    assert input[0..] == input && Prepend(raw, RawPieces(input)) == RawPieces(input) by {
      PrependNothing(RawPieces(input));
    }
    while idx < |input|
      invariant 0 <= start <= idx <= |input|
      invariant angle >= 0 && paren >= 0
      invariant parts == TrimAll(raw)
      invariant RawPieces(input) == Prepend(raw, SplitFrom(input[idx..], input[start..idx], Depth(angle, paren)))
    {
      var ch := input[idx];
      assert input[idx..][0] == ch && input[idx..][1..] == input[idx + 1..];
      assert input[start..idx] + [ch] == input[start..idx + 1];
      if ch == '<' {
        angle := angle + 1;
      } else if ch == '>' {
        if angle == 0 {
          return Err(InvalidArgument);
        }
        angle := angle - 1;
      } else if ch == '(' {
        paren := paren + 1;
      } else if ch == ')' {
        if paren == 0 {
          return Err(InvalidArgument);
        }
        paren := paren - 1;
      } else if ch == ',' && angle == 0 && paren == 0 {
        parts := parts + [Trim(input[start..idx])];
        PrependTwice(raw, [input[start..idx]], SplitFrom(input[idx + 1..], [], TOP));
        raw := raw + [input[start..idx]];
        start := idx + 1;
        assert input[start..idx + 1] == [];
      }
      idx := idx + 1;
    }
    assert input[start..idx] == input[start..];
    assert input[idx..] == [] && raw + [] == raw;
    if angle != 0 || paren != 0 {
      return Err(InvalidArgument);
    }
    assert SplitFrom([], input[start..], TOP) == Ok(if start < |input| then [input[start..]] else []);
    if start < |input| {
      parts := parts + [Trim(input[start..])];
      raw := raw + [input[start..]];
    }
    assert RawPieces(input) == Ok(raw) && parts == TrimAll(raw);
    return Ok(parts);
  }

  /** A piece without a top-level comma is read through to its end. */
  lemma {:induction false} SplitThrough(piece: string, rest: string, current: string, d: Depth)
    requires Absorb(true, d, piece).Some?
    ensures SplitFrom(piece + rest, current, d) == SplitFrom(rest, current + piece, Absorb(true, d, piece).value)
    decreases |piece|
  {
    if piece == [] {
      assert piece + rest == rest && current + piece == current;
    } else {
      assert (piece + rest)[1..] == piece[1..] + rest;
      assert current + [piece[0]] + piece[1..] == current + piece;
      SplitThrough(piece[1..], rest, current + [piece[0]], Step(true, d, piece[0]).value);
    }
  }

  function DropEmptyLast(parts: seq<string>): (r: seq<string>)
    ensures r <= parts
  {
    if parts != [] && parts[|parts| - 1] == "" then parts[..|parts| - 1] else parts
  }

  predicate AllNeutral(parens: bool, parts: seq<string>) {
    forall i :: 0 <= i < |parts| ==> Neutral(parens, parts[i])
  }

  /** Splitting undoes joining, for every list of pieces, up to one empty last piece. */
  lemma {:induction false} SplitInvertsJoin(parts: seq<string>)
    requires AllNeutral(true, parts)
    ensures RawPieces(Join(parts, ",")) == Ok(DropEmptyLast(parts))
  {
    if |parts| == 1 {
      SplitThrough(parts[0], "", "", TOP);
      assert parts[0] + "" == parts[0] && "" + parts[0] == parts[0];
      assert parts == [parts[0]];
    } else if |parts| > 1 {
      var rest := Join(parts[1..], ",");
      assert Join(parts, ",") == parts[0] + ("," + rest);
      SplitThrough(parts[0], "," + rest, "", TOP);
      assert "" + parts[0] == parts[0];
      assert ("," + rest)[1..] == rest;
      SplitInvertsJoin(parts[1..]);
      assert [parts[0]] + DropEmptyLast(parts[1..]) == DropEmptyLast(parts);
    }
  }

  lemma JoinCons(first: string, rest: seq<string>, sep: string)
    requires |rest| >= 1
    ensures Join([first] + rest, sep) == first + sep + Join(rest, sep)
  {
    assert ([first] + rest)[1..] == rest;
  }

  /** A neutral piece before a comma, in front of a list whose split is known. */
  lemma {:induction false} ConsSound(current: string, rest: string, more: seq<string>)
    requires |more| >= 1 && AllNeutral(true, more) && Neutral(true, current)
    requires rest != [] && rest[0] == ',' && Join(more, ",") == [] + rest[1..]
    ensures AllNeutral(true, [current] + more)
    ensures Join([current] + more, ",") == current + rest
    ensures DropEmptyLast([current] + more) == [current] + DropEmptyLast(more)
  {
    assert Join([current] + more, ",") == current + rest by {
      JoinCons(current, more, ",");
      assert current + "," + ([] + rest[1..]) == current + rest;
    }
    var n := |more| - 1;
    assert ([current] + more)[..n + 1] == [current] + more[..n];
  }

  /** Every successful split comes from joining neutral pieces: the pieces found, plus possibly an empty one. */
  lemma {:induction false} SplitFromSound(rest: string, current: string, d: Depth) returns (parts: seq<string>)
    requires Absorb(true, TOP, current) == Some(d)
    requires SplitFrom(rest, current, d).Ok?
    ensures |parts| >= 1 && AllNeutral(true, parts)
    ensures Join(parts, ",") == current + rest
    ensures SplitFrom(rest, current, d).value == DropEmptyLast(parts)
    decreases |rest|
  {
    if rest == [] {
      assert current + rest == current;
      return [current];
    }
    if rest[0] == ',' && d == TOP {
      var more := SplitFromSound(rest[1..], [], TOP);
      ConsSound(current, rest, more);
      return [current] + more;
    }
    AbsorbNext(true, TOP, current, rest[0]);
    parts := SplitFromSound(rest[1..], current + [rest[0]], Step(true, d, rest[0]).value);
    assert current + [rest[0]] + rest[1..] == current + rest;
  }

  /**
  Exactly the joins of neutral pieces are split, and the pieces come back: splitting
  succeeds with `pieces` if and only if `input` is the join of a list of neutral pieces
  that is `pieces`, up to one dropped empty last piece.
  */
  lemma SplitExact(input: string, pieces: seq<string>)
    ensures RawPieces(input) == Ok(pieces) <==>
            exists parts :: AllNeutral(true, parts) && Join(parts, ",") == input && DropEmptyLast(parts) == pieces
  {
    if RawPieces(input) == Ok(pieces) {
      var parts := SplitFromSound(input, [], TOP);
      assert [] + input == input;
    }
    if parts :| AllNeutral(true, parts) && Join(parts, ",") == input && DropEmptyLast(parts) == pieces {
      SplitInvertsJoin(parts);
    }
  }
}
