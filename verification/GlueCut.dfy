/**
Where Glue's splitters cut, and texts that end at another place than a given one.

Only angle brackets count, and their depth may go below zero.
*/
module GlueCut {
  import opened Arrow
  import opened Text
  import opened HiveSyntax

  /** The angle depth after a text that contains no comma at depth zero; None if it does contain one. */
  function AngleRun(d: int, s: string): Option<int>
    decreases |s|
  {
    if s == [] then Some(d)
    else if s[0] == ',' && d == 0 then None
    else AngleRun(AngleStep(d, s[0]), s[1..])
  }

  lemma {:induction false} AngleRunConcat(d: int, a: string, b: string)
    ensures AngleRun(d, a + b) ==
            match AngleRun(d, a)
            case None => None
            case Some(e) => AngleRun(e, b)
    decreases |a|
  {
    if a == [] {
      assert a + b == b;
    } else {
      assert (a + b)[1..] == a[1..] + b;
      AngleRunConcat(AngleStep(d, a[0]), a[1..], b);
    }
  }

  /** What both splitters do with a text: they stop at the first comma of depth zero, at `c`, if there is one. */
  ghost predicate CutAt(s: string, current: string, d: int, c: nat)
    requires c <= |s|
  {
    if c < |s| then
      && s[c] == ','
      && AngleRun(d, s[..c]) == Some(0)
      && AnglePieces(s, current, d) == [Trim(current + s[..c])] + AnglePieces(s[c + 1..], [], 0)
      && AngleSplit(s, current, d) == Some((current + s[..c], s[c + 1..]))
    else
      && AngleRun(d, s).Some?
      && AnglePieces(s, current, d) == (if Trim(current + s) == [] then [] else [Trim(current + s)])
      && AngleSplit(s, current, d) == None
  }

  lemma {:induction false} FirstCut(s: string, current: string, d: int) returns (c: nat)
    ensures c <= |s| && CutAt(s, current, d, c)
    decreases |s|
  {
    if s == [] {
      assert current + s == current;
      return 0;
    }
    if s[0] == ',' && d == 0 {
      assert current + s[..0] == current && s[..0] == [];
      return 0;
    }
    var k := FirstCut(s[1..], current + [s[0]], AngleStep(d, s[0]));
    CutNext(s, current, d, k);
    return k + 1;
  }

  lemma {:induction false} CutNext(s: string, current: string, d: int, k: nat)
    requires k < |s| && !(s[0] == ',' && d == 0)
    requires CutAt(s[1..], current + [s[0]], AngleStep(d, s[0]), k)
    ensures CutAt(s, current, d, k + 1)
  {
    var rest, c := s[1..], k + 1;
    assert s[..c][1..] == rest[..k];
    assert current + [s[0]] + rest[..k] == current + s[..c];
    if c < |s| {
      assert s[c] == rest[k] && s[c + 1..] == rest[k + 1..];
    } else {
      assert rest[..k] == rest && s[..c] == s;
    }
  }

  /** A text that comes back to depth zero is one piece in front of a comma. */
  lemma {:induction false} CutBetween(a: string, b: string, current: string, d: int)
    requires AngleRun(d, a) == Some(0)
    ensures AnglePieces(a + "," + b, current, d) == [Trim(current + a)] + AnglePieces(b, [], 0)
    ensures AngleSplit(a + "," + b, current, d) == Some((current + a, b))
    decreases |a|
  {
    var s := a + "," + b;
    if a == [] {
      assert s[0] == ',' && s[1..] == b && current + a == current;
    } else {
      assert s[0] == a[0] && s[1..] == a[1..] + "," + b;
      assert current + [a[0]] + a[1..] == current + a;
      CutBetween(a[1..], b, current + [a[0]], AngleStep(d, a[0]));
    }
  }

  lemma {:induction false} CutNowhere(a: string, current: string, d: int)
    requires AngleRun(d, a).Some?
    ensures AnglePieces(a, current, d) == if Trim(current + a) == [] then [] else [Trim(current + a)]
    decreases |a|
  {
    if a == [] {
      assert current + a == current;
    } else {
      assert current + [a[0]] + a[1..] == current + a;
      CutNowhere(a[1..], current + [a[0]], AngleStep(d, a[0]));
    }
  }

  // Texts that end at another place

  predicate Edge(c: char) {
    c == ',' || c == '>'
  }

  /** `u` stops inside `p`, before an edge or a blank. */
  predicate Shorter(u: string, p: string) {
    |u| < |p| && u == p[..|u|] && (Edge(p[|u|]) || IsWhitespace(p[|u|]))
  }

  /** `u` goes on after `p`, with an edge. */
  predicate Longer(u: string, p: string) {
    |p| < |u| && p == u[..|p|] && Edge(u[|p|])
  }

  predicate Off(u: string, p: string) {
    Shorter(u, p) || Longer(u, p)
  }

  /** Off by a closing bracket: what is left of two such texts inside brackets. */
  predicate CloseOff(u: string, p: string) {
    || (|u| < |p| && u == p[..|u|] && p[|u|] == '>')
    || (|p| < |u| && p == u[..|p|] && u[|p|] == '>')
  }

  lemma {:induction false} TrimEndRemoves(s: string)
    ensures var r := TrimEnd(s); forall i :: |r| <= i < |s| ==> IsWhitespace(s[i])
    decreases |s|
  {
    if s != [] && IsWhitespace(s[|s| - 1]) {
      TrimEndRemoves(s[..|s| - 1]);
    }
  }

  /** Trimming a text that is off leaves it off. */
  lemma TrimOff(r: string, p: string)
    requires Off(r, p) && p != [] && !IsWhitespace(p[0])
    ensures Trim(r) == [] || Off(Trim(r), p)
    ensures Trim(r) <= r
  {
    if r != [] {
      assert r[0] == p[0];
      var u := TrimEnd(r);
      assert Trim(r) == u;
      TrimEndRemoves(r);
      if Longer(r, p) {
        assert !IsWhitespace(r[|p|]);
        assert |u| > |p|;
        assert u[..|p|] == r[..|p|];
      } else if |u| < |r| {
        assert p[|u|] == r[|u|];
        assert p[..|u|] == r[..|u|];
      }
    }
  }

  /** A common beginning can be dropped. */
  lemma DropCommon(head: string, u: string, p: string)
    requires Off(head + u, head + p)
    ensures Off(u, p)
  {
    var a, b := head + u, head + p;
    if |u| < |p| {
      assert u == a[|head|..] && p[..|u|] == b[..|a|][|head|..];
      assert b[|a|] == p[|u|];
    } else {
      assert p == b[|head|..] && u[..|p|] == a[..|b|][|head|..];
      assert a[|b|] == u[|p|];
    }
  }

  lemma DropCommonClose(head: string, u: string, p: string)
    requires CloseOff(head + u, head + p)
    ensures CloseOff(u, p)
  {
    var a, b := head + u, head + p;
    if |u| < |p| {
      assert u == a[|head|..] && p[..|u|] == b[..|a|][|head|..];
      assert b[|a|] == p[|u|];
    } else {
      assert p == b[|head|..] && u[..|p|] == a[..|b|][|head|..];
      assert a[|b|] == u[|p|];
    }
  }

  /** The same or off by a closing bracket. */
  predicate Near(s: string, p: string) {
    s == p || CloseOff(s, p)
  }

  /**
  The first piece of a text near `p`, where `p` is `first` or begins with `first` and a comma:
  it is `first`, or it is off.
  */
  lemma FirstPieceOff(s: string, p: string, first: string, c: nat)
    requires Near(s, p) && c <= |s| && (c < |s| ==> s[c] == ',')
    requires p == first || (|first| < |p| && p[..|first|] == first && p[|first|] == ',')
    ensures s[..c] == first || Off(s[..c], first)
  {
    var q, n := s[..c], |first|;
    var m := if |s| < |p| then |s| else |p|;
    assert s[..m] == p[..m];
    assert forall i :: 0 <= i < m ==> s[i] == p[i] by {
      assert forall i :: 0 <= i < m ==> s[i] == s[..m][i] && p[i] == p[..m][i];
    }
    assert p[..n] == first;
    assert forall i :: 0 <= i < n ==> first[i] == p[i] by {
      assert forall i :: 0 <= i < n ==> p[i] == p[..n][i];
    }
    if c == n {
      assert q == first;
    } else if c < n {
      assert q == first[..c];
      if c < |s| {
        assert first[c] == p[c] == s[c];
      } else {
        assert first[c] == p[c];
      }
      assert Shorter(q, first);
    } else {
      assert q[..n] == first;
      assert q[n] == s[n];
      assert Longer(q, first);
    }
  }
}
