/**
Backtick quoting of multi-part names, and a reader that shows no two name lists share a
quoted form.
*/
module QuotedNames {
  import opened Arrow
  import opened Text

  predicate IdentifierStart(c: char) {
    'a' <= c <= 'z' || 'A' <= c <= 'Z' || c == '_'
  }

  predicate IsIdentifier(name: string) {
    && name != ""
    && IdentifierStart(name[0])
    && forall i :: 0 <= i < |name| ==> IdentifierStart(name[i]) || IsDigit(name[i])
  }

  function DoubleBackticks(name: string): string {
    if name == "" then ""
    else (if name[0] == '`' then "``" else [name[0]]) + DoubleBackticks(name[1..])
  }

  function QuoteName(name: string): string {
    if IsIdentifier(name) then name else "`" + DoubleBackticks(name) + "`"
  }

  function QuoteEach(names: seq<string>): seq<string> {
    seq(|names|, i requires 0 <= i < |names| => QuoteName(names[i]))
  }

  function QuoteNames(names: seq<string>): string {
    Join(QuoteEach(names), ".")
  }

  datatype Namespace = Namespace(head: string, tail: seq<string>)

  /** The namespace printer appends part after part to one string. */
  method QuoteNamespace(namespace: Namespace) returns (quoted: string)
    ensures quoted == QuoteNames([namespace.head] + namespace.tail)
  {
    quoted := QuoteName(namespace.head);
    var parts := [namespace.head] + namespace.tail;
    assert QuoteEach(parts[..1]) == [QuoteName(namespace.head)];
    for i := 0 to |namespace.tail|
      invariant quoted == QuoteNames(parts[..i + 1])
    {
      quoted := quoted + ".";
      quoted := quoted + QuoteName(namespace.tail[i]);
      assert QuoteEach(parts[..i + 2]) == QuoteEach(parts[..i + 1]) + [QuoteName(namespace.tail[i])];
      JoinSnoc(QuoteEach(parts[..i + 1]), QuoteName(namespace.tail[i]), ".");
    }
    assert parts[..|namespace.tail| + 1] == parts;
  }

  lemma {:induction false} JoinSnoc(parts: seq<string>, last: string, sep: string)
    requires parts != []
    ensures Join(parts + [last], sep) == Join(parts, sep) + sep + last
  {
    if |parts| == 1 {
      assert (parts + [last])[1..] == [last];
    } else {
      assert (parts + [last])[1..] == parts[1..] + [last];
      JoinSnoc(parts[1..], last, sep);
    }
  }

  // A reader for quoted names: one left-to-right scan.

  /** Reads up to the closing backtick; answers the name and what follows. */
  function ReadQuoted(s: string): (r: Option<(string, string)>)
    ensures r.Some? ==> |r.value.1| < |s|
  {
    if s == "" then None
    else if s[0] != '`' then Prefixed(s[0], ReadQuoted(s[1..]))
    else if |s| >= 2 && s[1] == '`' then Prefixed('`', ReadQuoted(s[2..]))
    else Some(("", s[1..]))
  }

  function Prefixed(c: char, r: Option<(string, string)>): Option<(string, string)> {
    if r.None? then None else Some(([c] + r.value.0, r.value.1))
  }

  /** Reads names separated by dots; at least one. */
  function ReadNames(s: string): Option<seq<string>>
    decreases |s|
  {
    if StartsWith(s, "`") then
      var quoted := ReadQuoted(s[1..]);
      if quoted.None? then None
      else if quoted.value.1 == "" then Some([quoted.value.0])
      else if quoted.value.1[0] != '.' then None
      else Consed(quoted.value.0, ReadNames(quoted.value.1[1..]))
    else
      var bare := SplitOnce(s, '.');
      if bare.None? then Some([s]) else Consed(bare.value.0, ReadNames(bare.value.1))
  }

  function Consed(name: string, rest: Option<seq<string>>): Option<seq<string>> {
    if rest.None? then None else Some([name] + rest.value)
  }

  function Read(s: string): Option<seq<string>> {
    if s == "" then Some([]) else ReadNames(s)
  }

  lemma {:induction false} ReadQuotedName(name: string, rest: string)
    requires rest == "" || rest[0] != '`'
    ensures ReadQuoted(DoubleBackticks(name) + "`" + rest) == Some((name, rest))
    decreases |name|
  {
    var s := DoubleBackticks(name) + "`" + rest;
    if name == "" {
      assert s == "`" + rest;
      assert s[1..] == rest;
    } else {
      ReadQuotedName(name[1..], rest);
      var inner := DoubleBackticks(name[1..]) + "`" + rest;
      if name[0] == '`' {
        assert s == "``" + inner;
        assert s[2..] == inner;
      } else {
        assert s == [name[0]] + inner;
        assert s[1..] == inner;
      }
      assert name == [name[0]] + name[1..];
    }
  }

  lemma IdentifierHasNoDot(name: string)
    requires IsIdentifier(name)
    ensures '.' !in name && !StartsWith(name, "`") && name != ""
  {
  }

  lemma ReadOneName(name: string)
    ensures ReadNames(QuoteName(name)) == Some([name])
  {
    var s := QuoteName(name);
    if IsIdentifier(name) {
      IdentifierHasNoDot(name);
    } else {
      ReadQuotedName(name, "");
      assert s[1..] == DoubleBackticks(name) + "`" + "";
    }
  }

  lemma ReadFirstName(name: string, rest: string)
    ensures ReadNames(QuoteName(name) + "." + rest) == Consed(name, ReadNames(rest))
  {
    var s := QuoteName(name) + "." + rest;
    if IsIdentifier(name) {
      IdentifierHasNoDot(name);
      assert !StartsWith(s, "`") by { assert s[0] == name[0]; }
      SplitOnceConcat(name, '.', rest);
    } else {
      ReadQuotedName(name, "." + rest);
      assert s[1..] == DoubleBackticks(name) + "`" + ("." + rest);
      assert ("." + rest)[1..] == rest;
    }
  }

  lemma {:induction false} ReadInvertsJoin(names: seq<string>)
    requires names != []
    ensures ReadNames(QuoteNames(names)) == Some(names)
    decreases |names|
  {
    if |names| == 1 {
      assert QuoteEach(names) == [QuoteName(names[0])];
      ReadOneName(names[0]);
      assert names == [names[0]];
    } else {
      assert QuoteEach(names)[1..] == QuoteEach(names[1..]);
      ReadInvertsJoin(names[1..]);
      ReadFirstName(names[0], QuoteNames(names[1..]));
      assert names == [names[0]] + names[1..];
    }
  }

  lemma QuotedNotEmpty(names: seq<string>)
    requires names != []
    ensures QuoteNames(names) != ""
  {
    assert QuoteEach(names)[0] == QuoteName(names[0]) != "";
  }

  /** Reading undoes quoting, for every list of names whatever they contain. */
  lemma ReadInvertsQuote(names: seq<string>)
    ensures Read(QuoteNames(names)) == Some(names)
  {
    if names != [] {
      QuotedNotEmpty(names);
      ReadInvertsJoin(names);
    }
  }

  lemma QuoteInjective(a: seq<string>, b: seq<string>)
    ensures QuoteNames(a) == QuoteNames(b) <==> a == b
  {
    ReadInvertsQuote(a);
    ReadInvertsQuote(b);
  }
}
