/** Storing a long text under several table properties, and reading it back. */
module LargeProperty {
  import opened Arrow
  import opened Text

  /** The largest `usize`; no Rust string is longer. */
  const USIZE_MAX: nat := 0xFFFF_FFFF_FFFF_FFFF

  function NumPartsKey(key: string): string {
    key + ".numParts"
  }

  function PartKey(key: string, index: nat): string {
    key + ".part." + NatToString(index)
  }

  /** The chunks of `rest`, the first of them continuing `current`. */
  function ChunksFrom(rest: string, current: string, threshold: nat): seq<string>
    decreases |rest|
  {
    if rest == [] then if current == [] then [] else [current]
    else if |current| >= threshold then [current] + ChunksFrom(rest[1..], [rest[0]], threshold)
    else ChunksFrom(rest[1..], current + [rest[0]], threshold)
  }

  function Chunks(value: string, threshold: nat): seq<string> {
    ChunksFrom(value, [], threshold)
  }

  function PartPairs(key: string, parts: seq<string>): (r: seq<(string, string)>)
    ensures |r| == |parts|
    ensures forall i :: 0 <= i < |parts| ==> r[i] == (PartKey(key, i), parts[i])
  {
    seq(|parts|, i requires 0 <= i < |parts| => (PartKey(key, i), parts[i]))
  }

  /** The properties that hold `value`. */
  function SplitPairs(key: string, value: string, threshold: nat): seq<(string, string)> {
    if |value| <= threshold then [(key, value)]
    else
      var parts := Chunks(value, threshold);
      [(NumPartsKey(key), NatToString(|parts|))] + PartPairs(key, parts)
  }

  /** The chunking loop of `split_large_table_prop`. */
  method SplitIntoParts(value: string, threshold: nat) returns (parts: seq<string>)
    ensures parts == Chunks(value, threshold)
  {
    parts := [];
    var current, count := "", 0;
    var i := 0;
    assert value[0..] == value;
    while i < |value|
      invariant 0 <= i <= |value|
      invariant count == |current|
      invariant Chunks(value, threshold) == parts + ChunksFrom(value[i..], current, threshold)
    {
      assert value[i..][1..] == value[i + 1..];
      if count >= threshold {
        parts := parts + [current];
        current := "";
        count := 0;
        assert [] + [value[i]] == [value[i]];
      }
      current := current + [value[i]];
      count := count + 1;
      i := i + 1;
    }
    assert value[i..] == [];
    if current != [] {
      parts := parts + [current];
    }
  }

  /** `split_large_table_prop`. */
  method SplitLargeTableProp(key: string, value: string, threshold: nat) returns (output: seq<(string, string)>)
    ensures output == SplitPairs(key, value, threshold)
  {
    if |value| <= threshold {
      return [(key, value)];
    }
    var parts := SplitIntoParts(value, threshold);
    output := [(NumPartsKey(key), NatToString(|parts|))];
    var index := 0;
    while index < |parts|
      invariant 0 <= index <= |parts|
      invariant output == [(NumPartsKey(key), NatToString(|parts|))] + PartPairs(key, parts)[..index]
    {
      output := output + [(PartKey(key, index), parts[index])];
      index := index + 1;
    }
    assert PartPairs(key, parts)[..index] == PartPairs(key, parts);
  }

  function Concat(parts: seq<string>): string {
    if parts == [] then "" else parts[0] + Concat(parts[1..])
  }

  /** The chunks put together again are the value, for every threshold. */
  lemma {:induction false} ChunksConcat(rest: string, current: string, threshold: nat)
    ensures Concat(ChunksFrom(rest, current, threshold)) == current + rest
    decreases |rest|
  {
    if rest == [] {
      assert current + rest == current;
      assert current != [] ==> Concat([current]) == current + Concat([]);
    } else if |current| >= threshold {
      var more := ChunksFrom(rest[1..], [rest[0]], threshold);
      ChunksConcat(rest[1..], [rest[0]], threshold);
      assert ([current] + more)[1..] == more;
      assert [rest[0]] + rest[1..] == rest;
    } else {
      ChunksConcat(rest[1..], current + [rest[0]], threshold);
      assert current + [rest[0]] + rest[1..] == current + rest;
    }
  }

  /** All chunks but the last are full, and the last is not empty and not overfull. */
  lemma {:induction false} ChunkSizes(rest: string, current: string, threshold: nat)
    requires threshold >= 1 && |current| <= threshold && (current != [] || rest != [])
    ensures var parts := ChunksFrom(rest, current, threshold);
            && |parts| >= 1
            && (forall i :: 0 <= i < |parts| - 1 ==> |parts[i]| == threshold)
            && 1 <= |parts[|parts| - 1]| <= threshold
    decreases |rest|
  {
    if rest != [] {
      if |current| >= threshold {
        ChunkSizes(rest[1..], [rest[0]], threshold);
      } else {
        ChunkSizes(rest[1..], current + [rest[0]], threshold);
      }
    }
  }

  lemma {:induction false} ChunkCount(rest: string, current: string, threshold: nat)
    ensures |ChunksFrom(rest, current, threshold)| <= |rest| + 1
    decreases |rest|
  {
    if rest != [] {
      if |current| >= threshold {
        ChunkCount(rest[1..], [rest[0]], threshold);
      } else {
        ChunkCount(rest[1..], current + [rest[0]], threshold);
      }
    }
  }

  // Reading

  /** The parts from `index` on, in order; an error if one is missing. */
  function ReadParts(parameters: map<string, string>, key: string, index: nat, count: nat): Result<string>
    requires index <= count
    decreases count - index
  {
    if index == count then Ok("")
    else if PartKey(key, index) !in parameters then Err(External)
    else
      var rest :- ReadParts(parameters, key, index + 1, count);
      Ok(parameters[PartKey(key, index)] + rest)
  }

  function ReadProp(parameters: Option<map<string, string>>, key: string): Result<Option<string>> {
    if parameters.None? then Ok(None)
    else
      var m := parameters.value;
      if key in m then Ok(Some(m[key]))
      else if NumPartsKey(key) !in m then Ok(None)
      else
        match ParseUnsigned(m[NumPartsKey(key)], USIZE_MAX)
        case None => Err(External)
        case Some(count) =>
          if count == 0 then Err(External)
          else
            var text :- ReadParts(m, key, 0, count);
            Ok(Some(text))
  }

  lemma {:induction false} ReadPartsError(parameters: map<string, string>, key: string, index: nat, count: nat)
    requires index <= count
    ensures ReadParts(parameters, key, index, count).Err? ==>
              ReadParts(parameters, key, index, count) == Err(External)
    decreases count - index
  {
    if index < count {
      ReadPartsError(parameters, key, index + 1, count);
    }
  }

  /** `read_large_table_prop`. */
  method ReadLargeTableProp(parameters: Option<map<string, string>>, key: string) returns (r: Result<Option<string>>)
    ensures r == ReadProp(parameters, key)
  {
    if parameters.None? {
      return Ok(None);
    }
    var m := parameters.value;
    if key in m {
      return Ok(Some(m[key]));
    }
    if NumPartsKey(key) !in m {
      return Ok(None);
    }
    var parsed := ParseUnsigned(m[NumPartsKey(key)], USIZE_MAX);
    if parsed.None? || parsed.value == 0 {
      return Err(External);
    }
    var count := parsed.value;
    var output, index := "", 0;
    ghost var all := ReadParts(m, key, 0, count);
    assert all.Ok? ==> "" + all.value == all.value;
    ReadPartsError(m, key, 0, count);
    while index < count
      invariant 0 <= index <= count
      invariant all.Ok? == ReadParts(m, key, index, count).Ok?
      invariant all.Ok? ==> all.value == output + ReadParts(m, key, index, count).value
    {
      if PartKey(key, index) !in m {
        return Err(External);
      }
      ghost var tail := ReadParts(m, key, index + 1, count);
      assert all.Ok? ==> output + (m[PartKey(key, index)] + tail.value) == output + m[PartKey(key, index)] + tail.value;
      output := output + m[PartKey(key, index)];
      index := index + 1;
    }
    assert output + "" == output;
    return Ok(Some(output));
  }

  /** Parameters that hold every pair of a list. */
  predicate Holds(parameters: map<string, string>, pairs: seq<(string, string)>) {
    forall i :: 0 <= i < |pairs| ==> pairs[i].0 in parameters && parameters[pairs[i].0] == pairs[i].1
  }

  lemma {:induction false} ReadPartsBack(parameters: map<string, string>, key: string, parts: seq<string>, index: nat)
    requires index <= |parts| && Holds(parameters, PartPairs(key, parts))
    ensures ReadParts(parameters, key, index, |parts|) == Ok(Concat(parts[index..]))
    decreases |parts| - index
  {
    if index < |parts| {
      ReadPartsBack(parameters, key, parts, index + 1);
      assert PartPairs(key, parts)[index] == (PartKey(key, index), parts[index]);
      assert parts[index..][1..] == parts[index + 1..];
    }
  }

  /**
  Whatever else the parameters hold, the value is read back from the properties it was
  split into, as long as a chunked value is not shadowed by an unchunked one.
  */
  lemma {:induction false} ReadBack(parameters: map<string, string>, key: string, value: string, threshold: nat)
    requires |value| < USIZE_MAX
    requires Holds(parameters, SplitPairs(key, value, threshold))
    requires |value| > threshold ==> key !in parameters
    ensures ReadProp(Some(parameters), key) == Ok(Some(value))
  {
    var pairs := SplitPairs(key, value, threshold);
    assert pairs[0].0 in parameters && parameters[pairs[0].0] == pairs[0].1;
    if |value| > threshold {
      var parts := Chunks(value, threshold);
      assert pairs[1..] == PartPairs(key, parts);
      assert Holds(parameters, pairs[1..]);
      ChunkCount(value, [], threshold);
      ChunksConcat(value, [], threshold);
      assert [] + value == value;
      assert parts != [] by {
        assert value != Concat([]);
      }
      UnsignedRoundTrip(|parts|, USIZE_MAX);
      ReadPartsBack(parameters, key, parts, 0);
      assert parts[0..] == parts;
    }
  }

  // Keys

  /** Inserting pairs in order: a later pair with the same key wins. */
  function InsertAll(parameters: map<string, string>, pairs: seq<(string, string)>): map<string, string>
    decreases |pairs|
  {
    if pairs == [] then parameters else InsertAll(parameters[pairs[0].0 := pairs[0].1], pairs[1..])
  }

  predicate DistinctKeys(pairs: seq<(string, string)>) {
    forall i, j :: 0 <= i < j < |pairs| ==> pairs[i].0 != pairs[j].0
  }

  predicate HasKey(pairs: seq<(string, string)>, key: string) {
    exists i :: 0 <= i < |pairs| && pairs[i].0 == key
  }

  /** Insertion keeps every other key. */
  lemma {:induction false} InsertAllKeeps(parameters: map<string, string>, pairs: seq<(string, string)>, key: string)
    requires !HasKey(pairs, key)
    ensures var m := InsertAll(parameters, pairs);
            (key in m <==> key in parameters) && (key in m ==> m[key] == parameters[key])
    decreases |pairs|
  {
    if pairs != [] {
      assert pairs[0].0 != key;
      assert !HasKey(pairs[1..], key) by {
        forall i | 0 <= i < |pairs[1..]|
          ensures pairs[1..][i].0 != key
        {
          assert pairs[1..][i] == pairs[i + 1];
        }
      }
      InsertAllKeeps(parameters[pairs[0].0 := pairs[0].1], pairs[1..], key);
    }
  }

  lemma {:induction false} InsertAllHolds(parameters: map<string, string>, pairs: seq<(string, string)>)
    requires DistinctKeys(pairs)
    ensures Holds(InsertAll(parameters, pairs), pairs)
    decreases |pairs|
  {
    if pairs != [] {
      var next := parameters[pairs[0].0 := pairs[0].1];
      assert !HasKey(pairs[1..], pairs[0].0) by {
        forall i | 0 <= i < |pairs[1..]|
          ensures pairs[1..][i].0 != pairs[0].0
        {
          assert pairs[1..][i] == pairs[i + 1];
        }
      }
      InsertAllKeeps(next, pairs[1..], pairs[0].0);
      InsertAllHolds(next, pairs[1..]);
      forall i | 0 <= i < |pairs|
        ensures var m := InsertAll(parameters, pairs); pairs[i].0 in m && m[pairs[i].0] == pairs[i].1
      {
        if i > 0 {
          assert pairs[i] == pairs[1..][i - 1];
        }
      }
    }
  }

  lemma PartKeysDiffer(key: string, i: nat, j: nat)
    requires PartKey(key, i) == PartKey(key, j)
    ensures i == j
  {
    var n := |key + ".part."|;
    assert PartKey(key, i)[n..] == NatToString(i) && PartKey(key, j)[n..] == NatToString(j);
    NatToStringInjective(i, j);
  }

  lemma PartKeyIsNoCount(key: string, i: nat)
    ensures PartKey(key, i) != NumPartsKey(key)
  {
    var n := |key|;
    assert PartKey(key, i)[n + 1] == ".part."[1] && NumPartsKey(key)[n + 1] == ".numParts"[1];
  }

  /** No two of the properties a value is split into share a key. */
  lemma SplitPairsDistinct(key: string, value: string, threshold: nat)
    ensures DistinctKeys(SplitPairs(key, value, threshold))
  {
    var pairs := SplitPairs(key, value, threshold);
    forall i, j | 0 <= i < j < |pairs|
      ensures pairs[i].0 != pairs[j].0
    {
      assert pairs[j].0 == PartKey(key, j - 1);
      if i == 0 {
        PartKeyIsNoCount(key, j - 1);
      } else {
        assert pairs[i].0 == PartKey(key, i - 1);
        if pairs[i].0 == pairs[j].0 {
          PartKeysDiffer(key, i - 1, j - 1);
        }
      }
    }
  }
}
