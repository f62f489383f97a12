/**
Table properties kept as a list of pairs, as the in-memory catalog keeps them, and their
agreement with the parameter map of the Hive Metastore.
*/
module PropertyList {
  import opened Arrow
  import opened Text
  import opened LargeProperty
  import opened HmsTable
  import opened HmsAlter

  type Properties = seq<(string, string)>

  /** Overwrites the first pair with the key, or adds a pair at the end. */
  function SetOne(list: Properties, key: string, value: string): Properties {
    if list == [] then [(key, value)]
    else if list[0].0 == key then [(list[0].0, value)] + list[1..]
    else [list[0]] + SetOne(list[1..], key, value)
  }

  function SetAll(list: Properties, pairs: Properties): Properties
    decreases |pairs|
  {
    if pairs == [] then list else SetAll(SetOne(list, pairs[0].0, pairs[0].1), pairs[1..])
  }

  /** Drops every pair with the key. */
  function Without(list: Properties, key: string): Properties {
    if list == [] then []
    else if list[0].0 == key then Without(list[1..], key)
    else [list[0]] + Without(list[1..], key)
  }

  /** Dropping keys one by one; a missing key stops it unless missing keys are allowed. */
  function UnsetAll(list: Properties, keys: seq<string>, ifExists: bool): (Properties, bool)
    decreases |keys|
  {
    if keys == [] then (list, true)
    else if !HasKey(list, keys[0]) && !ifExists then (list, false)
    else UnsetAll(Without(list, keys[0]), keys[1..], ifExists)
  }

  method IndexOf(list: Properties, key: string) returns (at: Option<nat>)
    ensures at.Some? ==> at.value < |list| && list[at.value].0 == key
    ensures at.Some? ==> forall i :: 0 <= i < at.value ==> list[i].0 != key
    ensures at.None? <==> !HasKey(list, key)
  {
    for i := 0 to |list|
      invariant forall j :: 0 <= j < i ==> list[j].0 != key
    {
      if list[i].0 == key {
        return Some(i);
      }
    }
    return None;
  }

  /** The loop of `SET TBLPROPERTIES`. */
  method SetProperties(list: Properties, pairs: Properties) returns (r: Properties)
    ensures r == SetAll(list, pairs)
  {
    r := list;
    assert pairs[0..] == pairs;
    for i := 0 to |pairs|
      invariant SetAll(r, pairs[i..]) == SetAll(list, pairs)
    {
      assert pairs[i..][0] == pairs[i] && pairs[i..][1..] == pairs[i + 1..];
      var at := IndexOf(r, pairs[i].0);
      SetOneAt(r, at, pairs[i].0, pairs[i].1);
      if at.Some? {
        r := r[at.value := (r[at.value].0, pairs[i].1)];
      } else {
        r := r + [pairs[i]];
      }
    }
  }

  /** `retain` on the key. */
  method Retain(list: Properties, key: string) returns (r: Properties)
    ensures r == Without(list, key)
  {
    r := [];
    for i := 0 to |list|
      invariant r + Without(list[i..], key) == Without(list, key)
    {
      assert list[i..][0] == list[i] && list[i..][1..] == list[i + 1..];
      if list[i].0 != key {
        r := r + [list[i]];
      }
    }
  }

  /** The loop of `UNSET TBLPROPERTIES`; on failure what was already removed stays removed. */
  method UnsetProperties(list: Properties, keys: seq<string>, ifExists: bool) returns (r: Properties, ok: bool)
    ensures (r, ok) == UnsetAll(list, keys, ifExists)
  {
    r := list;
    assert keys[0..] == keys;
    for i := 0 to |keys|
      invariant UnsetAll(r, keys[i..], ifExists) == UnsetAll(list, keys, ifExists)
    {
      assert keys[i..][0] == keys[i] && keys[i..][1..] == keys[i + 1..];
      var at := IndexOf(r, keys[i]);
      if at.None? && !ifExists {
        return r, false;
      }
      r := Retain(r, keys[i]);
    }
    ok := true;
  }

  lemma {:induction false} SetOneAt(list: Properties, at: Option<nat>, key: string, value: string)
    requires at.Some? ==> at.value < |list| && list[at.value].0 == key
    requires at.Some? ==> forall i :: 0 <= i < at.value ==> list[i].0 != key
    requires at.None? ==> !HasKey(list, key)
    ensures SetOne(list, key, value) ==
            if at.Some? then list[at.value := (list[at.value].0, value)] else list + [(key, value)]
    decreases |list|
  {
    if list != [] && list[0].0 != key {
      var rest := list[1..];
      assert forall i :: 0 <= i < |rest| ==> rest[i] == list[i + 1];
      SetOneAt(rest, if at.Some? then Some(at.value - 1) else None, key, value);
      assert list == [list[0]] + rest;
    }
  }

  // The list as a map

  /** What looking a key up finds: its first pair. */
  function AsMap(list: Properties): map<string, string> {
    if list == [] then map[] else AsMap(list[1..])[list[0].0 := list[0].1]
  }

  lemma {:induction false} AsMapKeys(list: Properties, key: string)
    ensures key in AsMap(list) <==> HasKey(list, key)
  {
    if list != [] {
      var rest := list[1..];
      AsMapKeys(rest, key);
      if HasKey(list, key) && list[0].0 != key {
        var i :| 0 <= i < |list| && list[i].0 == key;
        assert rest[i - 1].0 == key;
      }
    }
  }

  lemma {:induction false} SetOneAsMap(list: Properties, key: string, value: string)
    ensures AsMap(SetOne(list, key, value)) == AsMap(list)[key := value]
  {
    if list != [] {
      var updated := SetOne(list, key, value);
      if list[0].0 == key {
        assert updated[1..] == list[1..];
      } else {
        assert updated[1..] == SetOne(list[1..], key, value);
        SetOneAsMap(list[1..], key, value);
      }
    }
  }

  /** Setting on the list is inserting into the map, repeated keys included. */
  lemma {:induction false} SetAllAsMap(list: Properties, pairs: Properties)
    ensures AsMap(SetAll(list, pairs)) == InsertAll(AsMap(list), pairs)
    decreases |pairs|
  {
    if pairs != [] {
      SetOneAsMap(list, pairs[0].0, pairs[0].1);
      SetAllAsMap(SetOne(list, pairs[0].0, pairs[0].1), pairs[1..]);
    }
  }

  lemma {:induction false} WithoutAsMap(list: Properties, key: string)
    ensures AsMap(Without(list, key)) == AsMap(list) - {key}
  {
    if list != [] {
      WithoutAsMap(list[1..], key);
      if list[0].0 != key {
        assert Without(list, key)[1..] == Without(list[1..], key);
      }
    }
  }

  /** Unsetting on the list is removing from the map: same map, same success, also when it fails halfway. */
  lemma {:induction false} UnsetAllAsMap(list: Properties, keys: seq<string>, ifExists: bool)
    ensures var r := UnsetAll(list, keys, ifExists);
            (AsMap(r.0), r.1) == RemoveKeys(AsMap(list), keys, ifExists)
    decreases |keys|
  {
    if keys != [] {
      AsMapKeys(list, keys[0]);
      WithoutAsMap(list, keys[0]);
      UnsetAllAsMap(Without(list, keys[0]), keys[1..], ifExists);
    }
  }

  // Keys stay unique

  lemma {:induction false} SetOneUnique(list: Properties, key: string, value: string)
    requires DistinctKeys(list)
    ensures DistinctKeys(SetOne(list, key, value))
    decreases |list|
  {
    var at := FirstAt(list, key);
    SetOneAt(list, at, key, value);
  }

  lemma {:induction false} FirstAt(list: Properties, key: string) returns (at: Option<nat>)
    ensures at.Some? ==> at.value < |list| && list[at.value].0 == key
    ensures at.Some? ==> forall i :: 0 <= i < at.value ==> list[i].0 != key
    ensures at.None? ==> !HasKey(list, key)
  {
    var i := 0;
    while i < |list| && list[i].0 != key
      invariant 0 <= i <= |list| && forall j :: 0 <= j < i ==> list[j].0 != key
    {
      i := i + 1;
    }
    at := if i < |list| then Some(i) else None;
  }

  lemma {:induction false} SetAllUnique(list: Properties, pairs: Properties)
    requires DistinctKeys(list)
    ensures DistinctKeys(SetAll(list, pairs))
    decreases |pairs|
  {
    if pairs != [] {
      SetOneUnique(list, pairs[0].0, pairs[0].1);
      SetAllUnique(SetOne(list, pairs[0].0, pairs[0].1), pairs[1..]);
    }
  }

  lemma {:induction false} WithoutUnique(list: Properties, key: string)
    requires DistinctKeys(list)
    ensures DistinctKeys(Without(list, key))
    ensures forall k :: HasKey(Without(list, key), k) ==> HasKey(list, k)
    decreases |list|
  {
    if list != [] {
      var rest := list[1..];
      assert forall i :: 0 <= i < |rest| ==> rest[i] == list[i + 1];
      WithoutUnique(rest, key);
      assert forall k :: HasKey(rest, k) ==> HasKey(list, k);
      if list[0].0 != key {
        var kept := Without(rest, key);
        forall i | 0 <= i < |kept| ensures kept[i].0 != list[0].0 {
          assert HasKey(kept, kept[i].0);
          assert HasKey(rest, kept[i].0);
        }
        forall k | HasKey([list[0]] + kept, k) ensures HasKey(list, k) {
          if k != list[0].0 {
            var i :| 0 <= i < |[list[0]] + kept| && ([list[0]] + kept)[i].0 == k;
            assert kept[i - 1].0 == k;
            assert HasKey(kept, k);
          }
        }
      }
    }
  }

  lemma {:induction false} UnsetAllUnique(list: Properties, keys: seq<string>, ifExists: bool)
    requires DistinctKeys(list)
    ensures DistinctKeys(UnsetAll(list, keys, ifExists).0)
    decreases |keys|
  {
    if keys != [] {
      WithoutUnique(list, keys[0]);
      UnsetAllUnique(Without(list, keys[0]), keys[1..], ifExists);
    }
  }

  // Agreement of the two catalogs

  /** The alterations both catalogs have, on keys the Metastore catalog does not reserve. */
  datatype PropertyChange = Set(pairs: Properties) | Unset(keys: seq<string>, ifExists: bool) {
    predicate Unreserved() {
      match this
      case Set(pairs) => NoReserved(pairs)
      case Unset(keys, _) => forall i :: 0 <= i < |keys| ==> !IsReserved(keys[i])
    }

    function ForHms(): AlterOptions {
      match this
      case Set(pairs) => AlterOptions.SetProperties(pairs)
      case Unset(keys, ifExists) => AlterOptions.UnsetProperties(keys, ifExists)
    }
  }

  function ChangeList(list: Properties, change: PropertyChange): (Properties, bool) {
    match change
    case Set(pairs) => (SetAll(list, pairs), true)
    case Unset(keys, ifExists) => UnsetAll(list, keys, ifExists)
  }

  lemma ChangeListUnique(list: Properties, change: PropertyChange)
    requires DistinctKeys(list)
    ensures DistinctKeys(ChangeList(list, change).0)
  {
    match change
    case Set(pairs) => SetAllUnique(list, pairs);
    case Unset(keys, ifExists) => UnsetAllUnique(list, keys, ifExists);
  }

  /** The properties a Metastore table shows are those the list holds. */
  ghost predicate Alike(list: Properties, table: Table) {
    VisibleProperties(table.parameters) == AsMap(list)
  }

  lemma {:induction false} InsertAllVisible(m: map<string, string>, pairs: Properties)
    requires NoReserved(pairs)
    ensures VisibleProperties(Some(InsertAll(m, pairs))) == InsertAll(VisibleProperties(Some(m)), pairs)
    decreases |pairs|
  {
    if pairs != [] {
      var next := m[pairs[0].0 := pairs[0].1];
      InsertAllVisible(next, pairs[1..]);
      assert VisibleProperties(Some(next)) == VisibleProperties(Some(m))[pairs[0].0 := pairs[0].1];
    }
  }

  lemma {:induction false} RemoveKeysVisible(m: map<string, string>, keys: seq<string>, ifExists: bool)
    requires forall i :: 0 <= i < |keys| ==> !IsReserved(keys[i])
    ensures var r, v := RemoveKeys(m, keys, ifExists), RemoveKeys(VisibleProperties(Some(m)), keys, ifExists);
            VisibleProperties(Some(r.0)) == v.0 && r.1 == v.1
    decreases |keys|
  {
    if keys != [] {
      RemoveKeysVisible(m - {keys[0]}, keys[1..], ifExists);
      assert VisibleProperties(Some(m - {keys[0]})) == VisibleProperties(Some(m)) - {keys[0]};
    }
  }

  /** One change, in place: it succeeds on both or on neither, and leaves both showing the same. */
  lemma ChangeAgrees(list: Properties, table: Table, change: PropertyChange)
    requires Alike(list, table) && change.Unreserved()
    ensures var l, h := ChangeList(list, change), ApplyAlter(table, change.ForHms());
            (l.1 <==> h.result.Ok?) && Alike(l.0, h.table)
  {
    var m := OrEmpty(table.parameters);
    assert VisibleProperties(Some(m)) == VisibleProperties(table.parameters);
    match change
    case Set(pairs) =>
      SetAllAsMap(list, pairs);
      InsertAllVisible(m, pairs);
    case Unset(keys, ifExists) =>
      UnsetAllAsMap(list, keys, ifExists);
      RemoveKeysVisible(m, keys, ifExists);
  }

  /** A run of changes on the list, stopping at the first failure. */
  function ChangeListAll(list: Properties, changes: seq<PropertyChange>): Option<Properties>
    decreases |changes|
  {
    if changes == [] then Some(list)
    else
      var r := ChangeList(list, changes[0]);
      if r.1 then ChangeListAll(r.0, changes[1..]) else None
  }

  /** The same run on a Metastore table, every altered definition being stored. */
  function ChangeTableAll(table: Table, changes: seq<PropertyChange>): Option<Table>
    decreases |changes|
  {
    if changes == [] then Some(table)
    else
      var r := ApplyAlter(table, changes[0].ForHms());
      if r.result.Ok? then ChangeTableAll(r.table, changes[1..]) else None
  }

  /** Whole runs agree: same success, same properties shown, and unique keys of the list stay unique. */
  lemma {:induction false} RunsAgree(list: Properties, table: Table, changes: seq<PropertyChange>)
    requires Alike(list, table)
    requires forall i :: 0 <= i < |changes| ==> changes[i].Unreserved()
    ensures var l, h := ChangeListAll(list, changes), ChangeTableAll(table, changes);
            && (l.Some? <==> h.Some?)
            && (l.Some? ==> Alike(l.value, h.value) && (DistinctKeys(list) ==> DistinctKeys(l.value)))
    decreases |changes|
  {
    if changes != [] {
      ChangeAgrees(list, table, changes[0]);
      if DistinctKeys(list) {
        ChangeListUnique(list, changes[0]);
      }
      var l, h := ChangeList(list, changes[0]), ApplyAlter(table, changes[0].ForHms());
      if l.1 {
        RunsAgree(l.0, h.table, changes[1..]);
      }
    }
  }

  // A failed unset

  function KeySet(keys: seq<string>): set<string> {
    set i | 0 <= i < |keys| :: keys[i]
  }

  /** Without IF EXISTS, removal succeeds exactly when the keys are present and none is repeated. */
  lemma {:induction false} RemoveKeysExact(m: map<string, string>, keys: seq<string>, ifExists: bool)
    ensures var r := RemoveKeys(m, keys, ifExists);
            && (r.1 <==> ifExists || (Distinct(keys) && KeySet(keys) <= m.Keys))
            && (r.1 ==> r.0 == m - KeySet(keys))
    decreases |keys|
  {
    if keys == [] {
      assert m - KeySet(keys) == m;
    } else {
      var next, rest := m - {keys[0]}, keys[1..];
      RemoveKeysExact(next, rest, ifExists);
      assert forall i :: 0 <= i < |rest| ==> rest[i] == keys[i + 1];
      assert KeySet(keys) == {keys[0]} + KeySet(rest) by {
        forall k | k in KeySet(keys) ensures k in {keys[0]} + KeySet(rest) {
          var i :| 0 <= i < |keys| && keys[i] == k;
          if i > 0 {
            assert rest[i - 1] == k;
          }
        }
      }
      assert next - KeySet(rest) == m - KeySet(keys);
      if !ifExists && keys[0] in m {
        assert Distinct(keys) <==> Distinct(rest) && keys[0] !in rest;
        assert KeySet(rest) <= next.Keys <==> KeySet(rest) <= m.Keys && keys[0] !in KeySet(rest);
        assert keys[0] in KeySet(rest) <==> keys[0] in rest;
      }
      if !ifExists && keys[0] !in m {
        assert keys[0] in KeySet(keys);
      }
    }
  }

  lemma {:induction false} RemoveKeysShrinks(m: map<string, string>, keys: seq<string>, ifExists: bool)
    ensures RemoveKeys(m, keys, ifExists).0.Keys <= m.Keys
    decreases |keys|
  {
    if keys != [] {
      RemoveKeysShrinks(m - {keys[0]}, keys[1..], ifExists);
    }
  }

  /**
  After a failing UNSET the in-memory list has already lost the keys before the missing one,
  while the Metastore keeps the stored definition. The two still show the same properties
  exactly when the very first key was the missing one.
  */
  lemma FailedUnset(list: Properties, table: Table, keys: seq<string>)
    requires Alike(list, table) && Unset(keys, false).Unreserved()
    requires !ChangeList(list, Unset(keys, false)).1
    ensures var after := ChangeList(list, Unset(keys, false)).0;
            var stored := Run(table, [Call(Unset(keys, false).ForHms(), true)]);
            && stored == table
            && (Alike(after, stored) <==> keys[0] !in VisibleProperties(table.parameters))
  {
    ChangeAgrees(list, table, Unset(keys, false));
    UnsetAllAsMap(list, keys, false);
    var calls := [Call(Unset(keys, false).ForHms(), true)];
    assert calls[1..] == [];
    var m := AsMap(list);
    if keys[0] in m {
      RemoveKeysShrinks(m - {keys[0]}, keys[1..], false);
      assert keys[0] !in RemoveKeys(m, keys, false).0;
    }
  }

  /** The family is real: one present key followed by a missing one. */
  lemma PartialUnset(table: Table)
    requires VisibleProperties(table.parameters) == map["a" := "1"]
    ensures Alike([("a", "1")], table)
    ensures !ChangeList([("a", "1")], Unset(["a", "b"], false)).1
    ensures !Alike(ChangeList([("a", "1")], Unset(["a", "b"], false)).0, table)
  {
    var list, keys := [("a", "1")], ["a", "b"];
    assert AsMap(list) == map["a" := "1"];
    assert keys[1..][0] == "b" && keys[0] == "a";
    assert HasKey(list, "a");
    assert Without(list, "a") == [];
    assert UnsetAll(list, keys, false) == UnsetAll([], keys[1..], false) == ([], false);
    assert "a" in map["a" := "1"] && "a" !in AsMap([]);
  }
}
