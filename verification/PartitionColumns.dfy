/** Routing columns to the regular or the partition side by a case-insensitive lookup. */
module PartitionColumns {
  import opened Arrow
  import opened Text

  datatype Transform = Identity | OtherTransform

  datatype PartitionField = PartitionField(column: string, transform: Option<Transform>)

  function PartitionNames(fields: seq<PartitionField>): (r: seq<string>)
    ensures |r| == |fields|
  {
    seq(|fields|, i requires 0 <= i < |fields| => fields[i].column)
  }

  /** `build_partition_lookup`: lower-case name to name, the last spelling winning. */
  function BuildLookup(names: seq<string>): (r: map<string, string>)
    ensures r.Keys == LowerSet(names)
  {
    if names == [] then map[]
    else
      var n := |names| - 1;
      assert names == names[..n] + [names[n]];
      BuildLookup(names[..n])[ToLower(names[n]) := names[n]]
  }

  function LowerSet(names: seq<string>): set<string> {
    set i | 0 <= i < |names| :: ToLower(names[i])
  }

  predicate DistinctLower(names: seq<string>) {
    forall i, j :: 0 <= i < j < |names| ==> ToLower(names[i]) != ToLower(names[j])
  }

  datatype Routed<T> = Routed(regular: seq<T>, partition: seq<T>, unmatched: map<string, string>)

  function NamesOf<T>(items: seq<T>, name: T -> string): (r: seq<string>)
    ensures |r| == |items|
    ensures forall i :: 0 <= i < |items| ==> r[i] == name(items[i])
  {
    seq(|items|, i requires 0 <= i < |items| => name(items[i]))
  }

  /** Each lookup entry claims the first column with its name; the entries nobody used remain. */
  function Route<T>(items: seq<T>, name: T -> string, lookup: map<string, string>): Routed<T> {
    if items == [] then Routed([], [], lookup)
    else
      var key := ToLower(name(items[0]));
      if key in lookup then
        var r := Route(items[1..], name, lookup - {key});
        r.(partition := [items[0]] + r.partition)
      else
        var r := Route(items[1..], name, lookup);
        r.(regular := [items[0]] + r.regular)
  }

  /** The routing loop shared by `build_columns` and `reorder_spark_columns`. */
  method RouteColumns<T>(items: seq<T>, name: T -> string, lookup: map<string, string>)
    returns (regular: seq<T>, partition: seq<T>, unmatched: map<string, string>)
    ensures Routed(regular, partition, unmatched) == Route(items, name, lookup)
  {
    regular, partition, unmatched := [], [], lookup;
    var i := 0;
    while i < |items|
      invariant 0 <= i <= |items|
      invariant var r := Route(items[i..], name, unmatched);
                Route(items, name, lookup) == Routed(regular + r.regular, partition + r.partition, r.unmatched)
    {
      var key := ToLower(name(items[i]));
      assert items[i..][0] == items[i] && items[i..][1..] == items[i + 1..];
      if key in unmatched {
        unmatched := unmatched - {key};
        partition := partition + [items[i]];
      } else {
        regular := regular + [items[i]];
      }
      i := i + 1;
    }
  }

  /** The items whose lower-case name is (or is not) among the keys, in order. */
  function Select<T>(items: seq<T>, name: T -> string, keys: set<string>, among: bool): seq<T> {
    if items == [] then []
    else
      var rest := Select(items[1..], name, keys, among);
      if (ToLower(name(items[0])) in keys) == among then [items[0]] + rest else rest
  }

  lemma {:induction false} SelectIgnores<T>(items: seq<T>, name: T -> string, keys: set<string>, other: string, among: bool)
    requires forall i :: 0 <= i < |items| ==> ToLower(name(items[i])) != other
    ensures Select(items, name, keys - {other}, among) == Select(items, name, keys, among)
  {
    if items != [] {
      SelectIgnores(items[1..], name, keys, other, among);
    }
  }

  lemma TailDistinct<T>(items: seq<T>, name: T -> string)
    requires items != [] && DistinctLower(NamesOf(items, name))
    ensures DistinctLower(NamesOf(items[1..], name))
    ensures forall i :: 0 <= i < |items[1..]| ==> ToLower(name(items[1..][i])) != ToLower(name(items[0]))
  {
    var names := NamesOf(items, name);
    assert NamesOf(items[1..], name) == names[1..];
    forall i | 0 <= i < |items[1..]|
      ensures ToLower(name(items[1..][i])) != ToLower(name(items[0]))
    {
      assert names[0] == name(items[0]) && names[i + 1] == name(items[1..][i]);
    }
  }

  lemma LowerSetCons<T>(items: seq<T>, name: T -> string)
    requires items != []
    ensures LowerSet(NamesOf(items, name)) == {ToLower(name(items[0]))} + LowerSet(NamesOf(items[1..], name))
  {
    var names := NamesOf(items, name);
    assert names == [names[0]] + NamesOf(items[1..], name);
    forall x | x in LowerSet(names)
      ensures x in {ToLower(names[0])} + LowerSet(NamesOf(items[1..], name))
    {
      var i :| 0 <= i < |names| && x == ToLower(names[i]);
      if i > 0 {
        assert names[i] == NamesOf(items[1..], name)[i - 1];
      }
    }
    forall x | x in LowerSet(NamesOf(items[1..], name))
      ensures x in LowerSet(names)
    {
      var i :| 0 <= i < |items[1..]| && x == ToLower(NamesOf(items[1..], name)[i]);
      assert names[i + 1] == NamesOf(items[1..], name)[i];
    }
  }

  /** With names distinct ignoring case, routing is a stable partition by membership. */
  lemma {:induction false} RouteSelects<T>(items: seq<T>, name: T -> string, lookup: map<string, string>)
    requires DistinctLower(NamesOf(items, name))
    ensures var r := Route(items, name, lookup);
            && r.regular == Select(items, name, lookup.Keys, false)
            && r.partition == Select(items, name, lookup.Keys, true)
            && r.unmatched.Keys == lookup.Keys - LowerSet(NamesOf(items, name))
  {
    if items != [] {
      var key := ToLower(name(items[0]));
      TailDistinct(items, name);
      LowerSetCons(items, name);
      if key in lookup {
        RouteSelects(items[1..], name, lookup - {key});
        assert (lookup - {key}).Keys == lookup.Keys - {key};
        SelectIgnores(items[1..], name, lookup.Keys, key, false);
        SelectIgnores(items[1..], name, lookup.Keys, key, true);
      } else {
        RouteSelects(items[1..], name, lookup);
      }
    }
  }

  /** Whatever the names, the unmatched entries are those no column is named after. */
  lemma {:induction false} RouteUnmatched<T>(items: seq<T>, name: T -> string, lookup: map<string, string>)
    ensures Route(items, name, lookup).unmatched.Keys == lookup.Keys - LowerSet(NamesOf(items, name))
    ensures Route(items, name, lookup).unmatched.Keys == {} && lookup.Keys != {} ==>
              Route(items, name, lookup).partition != []
    ensures lookup.Keys == {} ==> Route(items, name, lookup) == Routed(items, [], lookup)
  {
    if items != [] {
      var key := ToLower(name(items[0]));
      LowerSetCons(items, name);
      if key in lookup {
        RouteUnmatched(items[1..], name, lookup - {key});
        assert (lookup - {key}).Keys == lookup.Keys - {key};
      } else {
        RouteUnmatched(items[1..], name, lookup);
      }
    }
  }

  /** The lower-case names on the partition side are the lookup keys that matched. */
  lemma {:induction false} RoutePartitionNames<T>(items: seq<T>, name: T -> string, lookup: map<string, string>)
    ensures var r := Route(items, name, lookup);
            LowerSet(NamesOf(r.partition, name)) == lookup.Keys - r.unmatched.Keys
    ensures Route(items, name, lookup).unmatched.Keys <= lookup.Keys
  {
    if items != [] {
      var key := ToLower(name(items[0]));
      if key in lookup {
        var r := Route(items[1..], name, lookup - {key});
        RoutePartitionNames(items[1..], name, lookup - {key});
        assert (lookup - {key}).Keys == lookup.Keys - {key};
        LowerSetCons([items[0]] + r.partition, name);
        assert ([items[0]] + r.partition)[1..] == r.partition;
      } else {
        RoutePartitionNames(items[1..], name, lookup);
      }
    }
  }
}
