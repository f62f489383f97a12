/** Pushing filters into the scan of a system table. */
module FilterPushdown {
  import opened Arrow
  import opened Text
  import opened Predicate

  // Splitting filters by column

  function Selected(es: seq<Expr>, column: string): seq<Expr> {
    if es == [] then []
    else if OnlyColumn(es[0], column) then [es[0]] + Selected(es[1..], column)
    else Selected(es[1..], column)
  }

  function Remaining(es: seq<Expr>, column: string): seq<Expr> {
    if es == [] then []
    else if OnlyColumn(es[0], column) then Remaining(es[1..], column)
    else [es[0]] + Remaining(es[1..], column)
  }

  /** The left-nested conjunction of a non-empty list. */
  function Conjunction(es: seq<Expr>): Expr
    requires es != []
  {
    if |es| == 1 then es[0] else And(Conjunction(es[..|es| - 1]), es[|es| - 1])
  }

  /** The evaluator's predicate for the selected filters; none if nothing was selected. */
  function Combined(selected: seq<Expr>): Option<Expr> {
    if selected == [] then None else Some(Rewrite(Conjunction(selected)))
  }

  method ConjoinFilters(selected: seq<Expr>) returns (r: Option<Expr>)
    ensures r == if selected == [] then None else Some(Conjunction(selected))
  {
    r := None;
    var j := 0;
    while j < |selected|
      invariant 0 <= j <= |selected|
      invariant r == if j == 0 then None else Some(Conjunction(selected[..j]))
    {
      assert selected[..j + 1][..j] == selected[..j];
      r := if r.None? then Some(selected[j]) else Some(And(r.value, selected[j]));
      j := j + 1;
    }
    assert selected[..j] == selected;
  }

  class PredicateExtractor {
    var expressions: seq<Expr>
    var extracted: seq<string>

    constructor (expressions: seq<Expr>)
      ensures this.expressions == expressions && extracted == []
    {
      this.expressions, extracted := expressions, [];
    }

    /** Takes the filters about one column out, and conjoins and rewrites them. */
    method Extract(column: string) returns (r: Option<Expr>)
      modifies this
      ensures r == Combined(Selected(old(expressions), column))
      ensures expressions == Remaining(old(expressions), column)
      ensures extracted == old(extracted) + [column]
    {
      extracted := extracted + [column];
      var all := expressions;
      var selected, remaining := [], [];
      var i := 0;
      assert all[0..] == all;
      while i < |all|
        invariant 0 <= i <= |all|
        invariant Selected(all, column) == selected + Selected(all[i..], column)
        invariant Remaining(all, column) == remaining + Remaining(all[i..], column)
        invariant extracted == old(extracted) + [column]
      {
        assert all[i..][0] == all[i] && all[i..][1..] == all[i + 1..];
        var valid := IsColumnPhysicalPredicate(all[i], column);
        if valid {
          selected := selected + [all[i]];
        } else {
          remaining := remaining + [all[i]];
        }
        i := i + 1;
      }
      assert all[i..] == [] && selected + [] == selected && remaining + [] == remaining;
      expressions := remaining;
      var conjunction := ConjoinFilters(selected);
      if conjunction.None? {
        return None;
      }
      return Some(Rewrite(conjunction.value));
    }

    /** Every filter must have been taken. */
    method Finalize() returns (ok: bool)
      ensures ok <==> expressions == []
    {
      return expressions == [];
    }
  }

  // The scan of one table

  datatype SystemTable = Jobs | Stages | Tasks | Options | Sessions | Workers

  /** The per-column predicates of a scan, in extraction order, and the filters left over. */
  function ExtractAll(filters: seq<Expr>, columns: seq<string>): (r: (seq<Option<Expr>>, seq<Expr>))
    ensures |r.0| == |columns|
    decreases |columns|
  {
    if columns == [] then ([], filters)
    else
      var rest := ExtractAll(Remaining(filters, columns[0]), columns[1..]);
      ([Combined(Selected(filters, columns[0]))] + rest.0, rest.1)
  }

  function ScanColumns(table: SystemTable): seq<string> {
    match table
    case Jobs | Stages | Tasks => ["session_id", "job_id"]
    case Options => ["key"]
    case Sessions => ["session_id"]
    case Workers => ["session_id", "worker_id"]
  }

  /** The predicates `SystemTableService::read` hands to the observer, or an error. */
  method ReadPredicates(table: SystemTable, filters: seq<Expr>) returns (r: Result<seq<Option<Expr>>>)
    ensures var e := ExtractAll(filters, ScanColumns(table));
            r == if e.1 == [] then Ok(e.0) else Err(Internal)
  {
    var extractor := new PredicateExtractor(filters);
    var predicates: seq<Option<Expr>>;
    match table {
      case Jobs | Stages | Tasks =>
        var session := extractor.Extract("session_id");
        var job := extractor.Extract("job_id");
        TwoColumns(filters, "session_id", "job_id");
        predicates := [session, job];
      case Options =>
        var key := extractor.Extract("key");
        OneColumn(filters, "key");
        predicates := [key];
      case Sessions =>
        var session := extractor.Extract("session_id");
        OneColumn(filters, "session_id");
        predicates := [session];
      case Workers =>
        var session := extractor.Extract("session_id");
        var worker := extractor.Extract("worker_id");
        TwoColumns(filters, "session_id", "worker_id");
        predicates := [session, worker];
    }
    var ok := extractor.Finalize();
    return if ok then Ok(predicates) else Err(Internal);
  }

  lemma OneColumn(filters: seq<Expr>, a: string)
    ensures ExtractAll(filters, [a]) == ([Combined(Selected(filters, a))], Remaining(filters, a))
  {
    assert [a][1..] == [];
    assert ExtractAll(Remaining(filters, a), []) == ([], Remaining(filters, a));
    assert [Combined(Selected(filters, a))] + [] == [Combined(Selected(filters, a))];
  }

  lemma TwoColumns(filters: seq<Expr>, a: string, b: string)
    ensures var rest := Remaining(filters, a);
            ExtractAll(filters, [a, b]) ==
            ([Combined(Selected(filters, a)), Combined(Selected(rest, b))], Remaining(rest, b))
  {
    var rest := Remaining(filters, a);
    assert [a, b][1..] == [b];
    OneColumn(rest, b);
    assert [Combined(Selected(filters, a))] + [Combined(Selected(rest, b))]
        == [Combined(Selected(filters, a)), Combined(Selected(rest, b))];
  }

  // Which extraction takes a filter

  /** The first column an expression is about, if any. */
  function Consumer(e: Expr, columns: seq<string>): (r: Option<nat>)
    ensures r.Some? ==> r.value < |columns| && OnlyColumn(e, columns[r.value])
    ensures r.Some? ==> forall j :: 0 <= j < r.value ==> !OnlyColumn(e, columns[j])
    ensures r.None? ==> forall j :: 0 <= j < |columns| ==> !OnlyColumn(e, columns[j])
  {
    if columns == [] then None
    else if OnlyColumn(e, columns[0]) then Some(0)
    else
      match Consumer(e, columns[1..])
      case None => None
      case Some(j) => Some(j + 1)
  }

  /** The filters a given consumer takes, in order. */
  function TakenBy(filters: seq<Expr>, columns: seq<string>, who: Option<nat>): seq<Expr> {
    if filters == [] then []
    else if Consumer(filters[0], columns) == who then [filters[0]] + TakenBy(filters[1..], columns, who)
    else TakenBy(filters[1..], columns, who)
  }

  lemma {:induction false} TakenByFirst(filters: seq<Expr>, columns: seq<string>)
    requires columns != []
    ensures Selected(filters, columns[0]) == TakenBy(filters, columns, Some(0))
  {
    if filters != [] {
      TakenByFirst(filters[1..], columns);
    }
  }

  lemma {:induction false} TakenByLater(filters: seq<Expr>, columns: seq<string>, who: Option<nat>)
    requires columns != []
    ensures TakenBy(Remaining(filters, columns[0]), columns[1..], who) ==
            TakenBy(filters, columns, if who.None? then None else Some(who.value + 1))
  {
    if filters != [] {
      TakenByLater(filters[1..], columns, who);
    }
  }

  /**
  Every filter is taken by exactly one extraction, that of the first column it is about;
  the filters left over are those about none of the columns.
  */
  lemma {:induction false} TakenOnce(filters: seq<Expr>, columns: seq<string>)
    ensures var e := ExtractAll(filters, columns);
            && (forall j: nat :: j < |columns| ==> e.0[j] == Combined(TakenBy(filters, columns, Some(j))))
            && e.1 == TakenBy(filters, columns, None)
    decreases |columns|
  {
    if columns == [] {
      TakenByNobody(filters);
    } else {
      var e := ExtractAll(filters, columns);
      var rest := Remaining(filters, columns[0]);
      TakenOnce(rest, columns[1..]);
      TakenByFirst(filters, columns);
      TakenByLater(filters, columns, None);
      forall j: nat | j < |columns|
        ensures e.0[j] == Combined(TakenBy(filters, columns, Some(j)))
      {
        if j > 0 {
          TakenByLater(filters, columns, Some(j - 1));
        }
      }
    }
  }

  lemma {:induction false} TakenByNobody(filters: seq<Expr>)
    ensures TakenBy(filters, [], None) == filters
  {
    if filters != [] {
      TakenByNobody(filters[1..]);
    }
  }

  predicate Covered(e: Expr, columns: seq<string>) {
    exists j :: 0 <= j < |columns| && OnlyColumn(e, columns[j])
  }

  predicate AllCovered(filters: seq<Expr>, columns: seq<string>) {
    forall i :: 0 <= i < |filters| ==> Covered(filters[i], columns)
  }

  lemma {:induction false} LeftOver(filters: seq<Expr>, columns: seq<string>)
    ensures TakenBy(filters, columns, None) == [] <==> AllCovered(filters, columns)
  {
    if filters != [] {
      LeftOver(filters[1..], columns);
      assert Covered(filters[0], columns) <==> Consumer(filters[0], columns).Some?;
      if AllCovered(filters, columns) {
        forall i | 0 <= i < |filters[1..]|
          ensures Covered(filters[1..][i], columns)
        {
          assert filters[1..][i] == filters[i + 1];
        }
      }
    }
  }

  /** The scan accepts its filters if and only if each of them is about one of the table's columns. */
  lemma FinalizeExact(filters: seq<Expr>, columns: seq<string>)
    ensures ExtractAll(filters, columns).1 == [] <==> AllCovered(filters, columns)
  {
    TakenOnce(filters, columns);
    LeftOver(filters, columns);
  }

  // Meaning

  predicate IsTrue(sem: Semantics, e: Expr, row: seq<Value>) {
    Eval(sem, e, row) == Val(VBool(true))
  }

  predicate AllTrue(sem: Semantics, es: seq<Expr>, row: seq<Value>) {
    forall i :: 0 <= i < |es| ==> IsTrue(sem, es[i], row)
  }

  /** A conjunction is true exactly when every conjunct is, in three-valued logic and with errors. */
  lemma {:induction false} ConjunctionTrue(sem: Semantics, es: seq<Expr>, row: seq<Value>)
    requires es != []
    ensures IsTrue(sem, Conjunction(es), row) <==> AllTrue(sem, es, row)
  {
    var n := |es| - 1;
    if n > 0 {
      ConjunctionTrue(sem, es[..n], row);
      assert forall i :: 0 <= i < n ==> es[..n][i] == es[i];
      if AllTrue(sem, es[..n], row) && IsTrue(sem, es[n], row) {
        assert AllTrue(sem, es, row);
      }
    }
  }

  predicate AllOnly(es: seq<Expr>, column: string) {
    forall i :: 0 <= i < |es| ==> OnlyColumn(es[i], column)
  }

  predicate EachResolved(es: seq<Expr>, schema: seq<string>) {
    forall i :: 0 <= i < |es| ==> Resolved(es[i], schema)
  }

  lemma {:induction false} ConjunctionOnly(es: seq<Expr>, column: string, schema: seq<string>)
    requires es != [] && AllOnly(es, column) && EachResolved(es, schema)
    ensures OnlyColumn(Conjunction(es), column) && Resolved(Conjunction(es), schema)
  {
    if |es| > 1 {
      ConjunctionOnly(es[..|es| - 1], column, schema);
    }
  }

  lemma {:induction false} TakenOnly(filters: seq<Expr>, columns: seq<string>, j: nat, schema: seq<string>)
    requires j < |columns| && EachResolved(filters, schema)
    ensures var taken := TakenBy(filters, columns, Some(j)); AllOnly(taken, columns[j]) && EachResolved(taken, schema)
  {
    if filters != [] {
      assert forall i :: 0 <= i < |filters[1..]| ==> filters[1..][i] == filters[i + 1];
      TakenOnly(filters[1..], columns, j, schema);
    }
  }

  /** Whether the scan keeps a row, as far as one column's predicate is concerned. */
  predicate Keeps(sem: Semantics, p: Option<Expr>, value: Value) {
    p.Some? ==> Evaluate(sem, p.value, value) == Ok(true)
  }

  /** One column's predicate is true of the column's value exactly when the filters it stands for are true of the row. */
  lemma KeepsTaken(sem: Semantics, taken: seq<Expr>, schema: seq<string>, row: seq<Value>, at: nat)
    requires |row| == |schema| && Distinct(schema) && at < |schema|
    requires AllOnly(taken, schema[at]) && EachResolved(taken, schema)
    ensures Keeps(sem, Combined(taken), row[at]) <==> AllTrue(sem, taken, row)
  {
    if taken != [] {
      ConjunctionOnly(taken, schema[at], schema);
      RewritePreservesMeaning(sem, Conjunction(taken), schema, row, at);
      ConjunctionTrue(sem, taken, row);
    }
  }

  lemma {:induction false} TakenAllTrue(sem: Semantics, filters: seq<Expr>, columns: seq<string>, row: seq<Value>)
    requires AllCovered(filters, columns)
    ensures AllTrue(sem, filters, row) <==>
            forall j: nat :: j < |columns| ==> AllTrue(sem, TakenBy(filters, columns, Some(j)), row)
  {
    if filters != [] {
      var first, rest := filters[0], filters[1..];
      assert forall i :: 0 <= i < |rest| ==> rest[i] == filters[i + 1];
      TakenAllTrue(sem, rest, columns, row);
      assert Covered(first, columns);
      var k := Consumer(first, columns).value;
      AllTrueCons(sem, filters, row);
      forall j: nat | j < |columns|
        ensures AllTrue(sem, TakenBy(filters, columns, Some(j)), row) <==>
                (j == k ==> IsTrue(sem, first, row)) && AllTrue(sem, TakenBy(rest, columns, Some(j)), row)
      {
        if j == k {
          AllTrueCons(sem, TakenBy(filters, columns, Some(j)), row);
          assert TakenBy(filters, columns, Some(j))[1..] == TakenBy(rest, columns, Some(j));
        }
      }
    }
  }

  lemma AllTrueCons(sem: Semantics, es: seq<Expr>, row: seq<Value>)
    requires es != []
    ensures AllTrue(sem, es, row) <==> IsTrue(sem, es[0], row) && AllTrue(sem, es[1..], row)
  {
    assert forall i :: 0 <= i < |es| - 1 ==> es[1..][i] == es[i + 1];
    if IsTrue(sem, es[0], row) && AllTrue(sem, es[1..], row) {
      forall i | 0 <= i < |es|
        ensures IsTrue(sem, es[i], row)
      {
        if i > 0 {
          assert es[i] == es[1..][i - 1];
        }
      }
    }
  }

  /** Where each scan column sits in the table's schema. */
  predicate Located(columns: seq<string>, schema: seq<string>, at: seq<nat>) {
    |at| == |columns| && forall j :: 0 <= j < |columns| ==> at[j] < |schema| && schema[at[j]] == columns[j]
  }

  /**
  Pushing the filters down preserves their meaning: for every row, the per-column
  predicates are all true of their column's value if and only if every original filter is
  true of the row, whatever the operators mean and whatever fails or is null.
  */
  lemma PushdownPreservesMeaning(sem: Semantics, filters: seq<Expr>, columns: seq<string>, schema: seq<string>,
                                 at: seq<nat>, row: seq<Value>)
    requires |row| == |schema| && Distinct(schema) && EachResolved(filters, schema) && Located(columns, schema, at)
    requires ExtractAll(filters, columns).1 == []
    ensures var predicates := ExtractAll(filters, columns).0;
            (forall j: nat :: j < |columns| ==> Keeps(sem, predicates[j], row[at[j]])) <==> AllTrue(sem, filters, row)
  {
    var predicates := ExtractAll(filters, columns).0;
    FinalizeExact(filters, columns);
    TakenOnce(filters, columns);
    forall j: nat | j < |columns|
      ensures Keeps(sem, predicates[j], row[at[j]]) <==> AllTrue(sem, TakenBy(filters, columns, Some(j)), row)
    {
      TakenOnly(filters, columns, j, schema);
      KeepsTaken(sem, TakenBy(filters, columns, Some(j)), schema, row, at[j]);
    }
    TakenAllTrue(sem, filters, columns, row);
  }

  // Filters that are false, null or failing

  predicate IsFalse(sem: Semantics, e: Expr, row: seq<Value>) {
    Eval(sem, e, row) == Val(VBool(false))
  }

  predicate IsNull(sem: Semantics, e: Expr, row: seq<Value>) {
    Eval(sem, e, row) == Val(VNull)
  }

  predicate TrueOrNull(sem: Semantics, e: Expr, row: seq<Value>) {
    IsTrue(sem, e, row) || IsNull(sem, e, row)
  }

  predicate AllTrueOrNull(sem: Semantics, es: seq<Expr>, row: seq<Value>) {
    forall i :: 0 <= i < |es| ==> TrueOrNull(sem, es[i], row)
  }

  /** Filter `k` is false, nothing before it stood in the way, and what follows is skipped or harmless. */
  predicate DecidedAt(sem: Semantics, es: seq<Expr>, row: seq<Value>, k: nat)
    requires k < |es|
  {
    && IsFalse(sem, es[k], row)
    && AllTrueOrNull(sem, es[..k], row)
    && (sem.shortCircuit ||
        forall i :: k < i < |es| ==> TrueOrNull(sem, es[i], row) || IsFalse(sem, es[i], row))
  }

  predicate DecidedFalse(sem: Semantics, es: seq<Expr>, row: seq<Value>) {
    exists k: nat :: k < |es| && DecidedAt(sem, es, row, k)
  }

  lemma {:induction false} ConjunctionTrueOrNull(sem: Semantics, es: seq<Expr>, row: seq<Value>)
    requires es != []
    ensures TrueOrNull(sem, Conjunction(es), row) <==> AllTrueOrNull(sem, es, row)
  {
    var n := |es| - 1;
    if n > 0 {
      ConjunctionTrueOrNull(sem, es[..n], row);
      assert forall i :: 0 <= i < n ==> es[..n][i] == es[i];
      if AllTrueOrNull(sem, es[..n], row) && TrueOrNull(sem, es[n], row) {
        assert AllTrueOrNull(sem, es, row);
      }
    }
  }

  /** One more filter at the end. */
  lemma DecidedSnoc(sem: Semantics, es: seq<Expr>, e: Expr, row: seq<Value>)
    ensures DecidedFalse(sem, es + [e], row) <==>
            || (AllTrueOrNull(sem, es, row) && IsFalse(sem, e, row))
            || (DecidedFalse(sem, es, row) &&
                (sem.shortCircuit || TrueOrNull(sem, e, row) || IsFalse(sem, e, row)))
  {
    var all, n := es + [e], |es|;
    assert all[..n] == es && all[n] == e;
    forall k: nat | k < n
      ensures DecidedAt(sem, all, row, k) <==>
              DecidedAt(sem, es, row, k) && (sem.shortCircuit || TrueOrNull(sem, e, row) || IsFalse(sem, e, row))
    {
      assert all[..k] == es[..k] && all[k] == es[k];
    }
    if DecidedFalse(sem, all, row) {
      var k: nat :| k < |all| && DecidedAt(sem, all, row, k);
      if k < n {
        assert DecidedAt(sem, es, row, k);
      }
    }
    if DecidedFalse(sem, es, row) {
      var k: nat :| k < n && DecidedAt(sem, es, row, k);
      assert DecidedAt(sem, all, row, k) <==> sem.shortCircuit || TrueOrNull(sem, e, row) || IsFalse(sem, e, row);
    }
    if AllTrueOrNull(sem, es, row) && IsFalse(sem, e, row) {
      assert DecidedAt(sem, all, row, n);
    }
  }

  /** A conjunction is false exactly when one of its filters decides it. */
  lemma {:induction false} ConjunctionFalse(sem: Semantics, es: seq<Expr>, row: seq<Value>)
    requires es != []
    ensures IsFalse(sem, Conjunction(es), row) <==> DecidedFalse(sem, es, row)
  {
    var n := |es| - 1;
    var front, last := es[..n], es[n];
    assert es == front + [last];
    DecidedSnoc(sem, front, last, row);
    if n == 0 {
      assert AllTrueOrNull(sem, front, row) && !DecidedFalse(sem, front, row);
    } else {
      ConjunctionFalse(sem, front, row);
      ConjunctionTrueOrNull(sem, front, row);
    }
  }

  /** What the filters taken by one column say of a row: kept, dropped, or the scan fails. */
  function TakenOutcome(sem: Semantics, taken: seq<Expr>, row: seq<Value>): Result<bool> {
    if AllTrue(sem, taken, row) then Ok(true)
    else if DecidedFalse(sem, taken, row) then Ok(false)
    else Err(Internal)
  }

  /** The predicate of one column, for any list of filters: exactly when it answers true, false or an error. */
  lemma EvaluateTaken(sem: Semantics, taken: seq<Expr>, schema: seq<string>, row: seq<Value>, at: nat)
    requires |row| == |schema| && Distinct(schema) && at < |schema| && taken != []
    requires AllOnly(taken, schema[at]) && EachResolved(taken, schema)
    ensures Evaluate(sem, Combined(taken).value, row[at]) == TakenOutcome(sem, taken, row)
  {
    ConjunctionOnly(taken, schema[at], schema);
    RewritePreservesMeaning(sem, Conjunction(taken), schema, row, at);
    ConjunctionTrue(sem, taken, row);
    ConjunctionFalse(sem, taken, row);
  }

  /** A null filter makes its column's predicate fail unless another filter of that column decides it false. */
  lemma NullFilterFails(sem: Semantics, taken: seq<Expr>, schema: seq<string>, row: seq<Value>, at: nat, k: nat)
    requires |row| == |schema| && Distinct(schema) && at < |schema|
    requires AllOnly(taken, schema[at]) && EachResolved(taken, schema)
    requires k < |taken| && IsNull(sem, taken[k], row)
    ensures Evaluate(sem, Combined(taken).value, row[at]) == Err(Internal) <==> !DecidedFalse(sem, taken, row)
  {
    EvaluateTaken(sem, taken, schema, row, at);
    assert !IsTrue(sem, taken[k], row);
  }

  /** A null filter beside a false one on the same column: the row is dropped and nothing fails. */
  lemma NullBesideFalse(sem: Semantics, e: Expr, f: Expr, row: seq<Value>)
    requires IsNull(sem, e, row) && IsFalse(sem, f, row)
    ensures TakenOutcome(sem, [e], row) == Err(Internal)
    ensures TakenOutcome(sem, [e, f], row) == Ok(false) == TakenOutcome(sem, [f, e], row)
  {
    assert !IsTrue(sem, [e][0], row) && !IsFalse(sem, [e][0], row);
    assert [e, f][..1] == [e] && TrueOrNull(sem, [e][0], row);
    assert DecidedAt(sem, [e, f], row, 1);
    assert DecidedAt(sem, [f, e], row, 0);
    assert !IsTrue(sem, [e, f][0], row) && !IsTrue(sem, [f, e][0], row);
  }

  // A row against all columns of a scan

  /** The predicates are consulted in turn; the first that is false drops the row, the first that fails ends the scan. */
  function ScanRow(sem: Semantics, predicates: seq<Option<Expr>>, values: seq<Value>): Result<bool>
    requires |predicates| == |values|
  {
    if predicates == [] then Ok(true)
    else if predicates[0].None? then ScanRow(sem, predicates[1..], values[1..])
    else
      match Evaluate(sem, predicates[0].value, values[0])
      case Err(e) => Err(e)
      case Ok(keep) => if keep then ScanRow(sem, predicates[1..], values[1..]) else Ok(false)
  }

  /** The same, said of the original filters, column by column. */
  function FiltersOutcome(sem: Semantics, groups: seq<seq<Expr>>, row: seq<Value>): Result<bool> {
    if groups == [] then Ok(true)
    else
      match TakenOutcome(sem, groups[0], row)
      case Err(e) => Err(e)
      case Ok(keep) => if keep then FiltersOutcome(sem, groups[1..], row) else Ok(false)
  }

  predicate FirstOutcome(sem: Semantics, groups: seq<seq<Expr>>, row: seq<Value>, j: nat, r: Result<bool>)
    requires j < |groups|
  {
    TakenOutcome(sem, groups[j], row) == r && forall i :: 0 <= i < j ==> AllTrue(sem, groups[i], row)
  }

  /** A row is kept if all filters are true; else the first column with an untrue filter decides. */
  lemma {:induction false} FiltersOutcomeExact(sem: Semantics, groups: seq<seq<Expr>>, row: seq<Value>)
    ensures FiltersOutcome(sem, groups, row) == Ok(true) <==>
            forall j :: 0 <= j < |groups| ==> AllTrue(sem, groups[j], row)
    ensures FiltersOutcome(sem, groups, row) == Ok(false) <==>
            exists j: nat :: j < |groups| && FirstOutcome(sem, groups, row, j, Ok(false))
    ensures FiltersOutcome(sem, groups, row) == Err(Internal) <==>
            exists j: nat :: j < |groups| && FirstOutcome(sem, groups, row, j, Err(Internal))
    decreases |groups|
  {
    if groups != [] {
      var rest := groups[1..];
      FiltersOutcomeExact(sem, rest, row);
      assert forall i :: 0 <= i < |rest| ==> rest[i] == groups[i + 1];
      FirstGroup(sem, groups, row, Ok(false));
      FirstGroup(sem, groups, row, Err(Internal));
      assert (forall j :: 0 <= j < |groups| ==> AllTrue(sem, groups[j], row)) <==>
        AllTrue(sem, groups[0], row) && forall j :: 0 <= j < |rest| ==> AllTrue(sem, rest[j], row) by {
        assert forall j :: 0 < j < |groups| ==> groups[j] == rest[j - 1];
      }
    }
  }

  lemma NextOutcome(sem: Semantics, groups: seq<seq<Expr>>, row: seq<Value>, j: nat, r: Result<bool>)
    requires j + 1 < |groups|
    ensures FirstOutcome(sem, groups, row, j + 1, r) <==>
            AllTrue(sem, groups[0], row) && FirstOutcome(sem, groups[1..], row, j, r)
  {
    var rest := groups[1..];
    assert rest[j] == groups[j + 1];
    if FirstOutcome(sem, groups, row, j + 1, r) {
      forall i | 0 <= i < j ensures AllTrue(sem, rest[i], row) {
        assert rest[i] == groups[i + 1];
      }
    }
    if AllTrue(sem, groups[0], row) && FirstOutcome(sem, rest, row, j, r) {
      forall i | 0 <= i < j + 1 ensures AllTrue(sem, groups[i], row) {
        if i > 0 {
          assert groups[i] == rest[i - 1];
        }
      }
    }
  }

  lemma FirstGroup(sem: Semantics, groups: seq<seq<Expr>>, row: seq<Value>, r: Result<bool>)
    requires groups != []
    ensures (exists j: nat :: j < |groups| && FirstOutcome(sem, groups, row, j, r)) <==>
            || TakenOutcome(sem, groups[0], row) == r
            || (AllTrue(sem, groups[0], row) &&
                exists j: nat :: j < |groups[1..]| && FirstOutcome(sem, groups[1..], row, j, r))
  {
    var rest := groups[1..];
    if j: nat :| j < |groups| && FirstOutcome(sem, groups, row, j, r) {
      if j > 0 {
        NextOutcome(sem, groups, row, j - 1, r);
      }
    }
    if TakenOutcome(sem, groups[0], row) == r {
      assert FirstOutcome(sem, groups, row, 0, r);
    }
    if AllTrue(sem, groups[0], row) && exists j: nat :: j < |rest| && FirstOutcome(sem, rest, row, j, r) {
      var j: nat :| j < |rest| && FirstOutcome(sem, rest, row, j, r);
      NextOutcome(sem, groups, row, j, r);
    }
  }

  /** The filters each column takes, in extraction order. */
  function Groups(filters: seq<Expr>, columns: seq<string>): seq<seq<Expr>> {
    seq(|columns|, j requires 0 <= j < |columns| => TakenBy(filters, columns, Some(j)))
  }

  function ValuesAt(row: seq<Value>, at: seq<nat>): seq<Value>
    requires forall j :: 0 <= j < |at| ==> at[j] < |row|
  {
    seq(|at|, j requires 0 <= j < |at| => row[at[j]])
  }

  lemma {:induction false} ScanIsFilters(sem: Semantics, groups: seq<seq<Expr>>, predicates: seq<Option<Expr>>,
                                         row: seq<Value>, values: seq<Value>)
    requires |groups| == |predicates| == |values|
    requires forall j :: 0 <= j < |groups| ==>
               predicates[j] == Combined(groups[j]) && ColumnAnswers(sem, groups[j], row, values[j])
    ensures ScanRow(sem, predicates, values) == FiltersOutcome(sem, groups, row)
    decreases |groups|
  {
    if groups != [] {
      assert predicates[0] == Combined(groups[0]) && ColumnAnswers(sem, groups[0], row, values[0]);
      forall j | 0 <= j < |groups[1..]|
        ensures predicates[1..][j] == Combined(groups[1..][j])
                && ColumnAnswers(sem, groups[1..][j], row, values[1..][j])
      {
        assert groups[1..][j] == groups[j + 1];
      }
      ScanIsFilters(sem, groups[1..], predicates[1..], row, values[1..]);
    }
  }

  /** The column's predicate, evaluated on the column's value, answers for its filters. */
  predicate ColumnAnswers(sem: Semantics, taken: seq<Expr>, row: seq<Value>, value: Value) {
    taken != [] ==> Evaluate(sem, Combined(taken).value, value) == TakenOutcome(sem, taken, row)
  }

  /**
  The scan of a row, for every accepted list of filters: consulting the per-column predicates
  in turn gives what the original filters say, column by column. The row is kept if and only
  if all filters are true; and if not, it is dropped or the scan fails exactly as the first
  column with an untrue filter has it.
  */
  lemma ScanExact(sem: Semantics, filters: seq<Expr>, columns: seq<string>, schema: seq<string>,
                  at: seq<nat>, row: seq<Value>)
    requires |row| == |schema| && Distinct(schema) && EachResolved(filters, schema) && Located(columns, schema, at)
    requires ExtractAll(filters, columns).1 == []
    ensures var groups := Groups(filters, columns);
            var r := ScanRow(sem, ExtractAll(filters, columns).0, ValuesAt(row, at));
            && (r == Ok(true) <==> AllTrue(sem, filters, row))
            && (r == Ok(false) <==> exists j: nat :: j < |groups| && FirstOutcome(sem, groups, row, j, Ok(false)))
            && (r == Err(Internal) <==>
                exists j: nat :: j < |groups| && FirstOutcome(sem, groups, row, j, Err(Internal)))
  {
    var groups, predicates, values := Groups(filters, columns), ExtractAll(filters, columns).0, ValuesAt(row, at);
    TakenOnce(filters, columns);
    forall j | 0 <= j < |groups|
      ensures predicates[j] == Combined(groups[j]) && ColumnAnswers(sem, groups[j], row, values[j])
    {
      TakenOnly(filters, columns, j, schema);
      if groups[j] != [] {
        EvaluateTaken(sem, groups[j], schema, row, at[j]);
      }
    }
    ScanIsFilters(sem, groups, predicates, row, values);
    FiltersOutcomeExact(sem, groups, row);
    FinalizeExact(filters, columns);
    TakenAllTrue(sem, filters, columns, row);
    assert forall j: nat :: j < |columns| ==> groups[j] == TakenBy(filters, columns, Some(j));
  }

  // The planner's promise

  /** A logical expression; a column may carry a relation qualifier. */
  datatype LogicalExpr =
    | LColumn(relation: Option<string>, name: string)
    | LLiteral(v: Value)
    | LAnd(left: LogicalExpr, right: LogicalExpr)
    | LCall(op: string, args: seq<LogicalExpr>)

  /** `is_column_logical_predicate`; the qualifier is not looked at. */
  predicate OnlyLogicalColumn(e: LogicalExpr, column: string)
    decreases e, 1
  {
    match e
    case LColumn(_, name) => name == column
    case LLiteral(_) => true
    case LAnd(l, r) => OnlyLogicalColumn(l, column) && OnlyLogicalColumn(r, column)
    case LCall(_, args) => OnlyLogicalColumns(args, column)
  }

  predicate OnlyLogicalColumns(es: seq<LogicalExpr>, column: string)
    decreases es, 0
  {
    es == [] || (OnlyLogicalColumn(es[0], column) && OnlyLogicalColumns(es[1..], column))
  }

  /** The columns the planner accepts filters on. */
  function PushdownColumns(table: SystemTable): seq<string> {
    match table
    case Jobs | Stages | Tasks => ["session_id", "job_id"]
    case Options => ["key"]
    case Sessions => ["session_id"]
    case Workers => ["session_id", "worker_id"]
  }

  datatype Support = Exact | Unsupported

  /** `supports_filters_pushdown`, for one filter. */
  function Supports(table: SystemTable, filter: LogicalExpr): Support {
    if exists j :: 0 <= j < |PushdownColumns(table)| && OnlyLogicalColumn(filter, PushdownColumns(table)[j])
    then Exact else Unsupported
  }

  function IndexOf(schema: seq<string>, name: string): (r: Option<nat>)
    ensures r.Some? ==> r.value < |schema| && schema[r.value] == name
  {
    if schema == [] then None
    else if schema[0] == name then Some(0)
    else
      match IndexOf(schema[1..], name)
      case None => None
      case Some(i) => Some(i + 1)
  }

  /** Physical planning resolves column names to positions and keeps the expression's shape. */
  function Lower(e: LogicalExpr, schema: seq<string>): Option<Expr>
    decreases e, 1
  {
    match e
    case LColumn(_, name) =>
      (match IndexOf(schema, name)
       case None => None
       case Some(i) => Some(Column(name, i)))
    case LLiteral(v) => Some(Literal(v))
    case LAnd(l, r) =>
      (match (Lower(l, schema), Lower(r, schema))
       case (Some(pl), Some(pr)) => Some(And(pl, pr))
       case _ => None)
    case LCall(op, args) =>
      match LowerAll(args, schema)
      case None => None
      case Some(es) => Some(Call(op, es))
  }

  function LowerAll(es: seq<LogicalExpr>, schema: seq<string>): (r: Option<seq<Expr>>)
    ensures r.Some? ==> |r.value| == |es|
    decreases es, 0
  {
    if es == [] then Some([])
    else
      match (Lower(es[0], schema), LowerAll(es[1..], schema))
      case (Some(first), Some(rest)) => Some([first] + rest)
      case _ => None
  }

  lemma {:induction false} LowerKeepsColumns(e: LogicalExpr, schema: seq<string>, column: string)
    requires Lower(e, schema).Some?
    ensures OnlyColumn(Lower(e, schema).value, column) == OnlyLogicalColumn(e, column)
    ensures Resolved(Lower(e, schema).value, schema)
    decreases e, 1
  {
    match e
    case LColumn(_, _) =>
    case LLiteral(_) =>
    case LAnd(l, r) =>
      LowerKeepsColumns(l, schema, column);
      LowerKeepsColumns(r, schema, column);
    case LCall(_, args) => LowerAllKeeps(args, schema, column);
  }

  lemma {:induction false} LowerAllKeeps(es: seq<LogicalExpr>, schema: seq<string>, column: string)
    requires LowerAll(es, schema).Some?
    ensures OnlyColumns(LowerAll(es, schema).value, column) == OnlyLogicalColumns(es, column)
    ensures AllResolved(LowerAll(es, schema).value, schema)
    decreases es, 0
  {
    if es != [] {
      LowerKeepsColumns(es[0], schema, column);
      LowerAllKeeps(es[1..], schema, column);
      assert LowerAll(es, schema).value[1..] == LowerAll(es[1..], schema).value;
    }
  }

  /**
  The planner's promise is kept: the scan accepts a list of filters if and only if the
  planner had declared every one of them exact.
  */
  lemma {:induction false} ExactMeansAccepted(table: SystemTable, filters: seq<LogicalExpr>, schema: seq<string>)
    requires LowerAll(filters, schema).Some?
    ensures ExtractAll(LowerAll(filters, schema).value, ScanColumns(table)).1 == [] <==>
            forall i :: 0 <= i < |filters| ==> Supports(table, filters[i]) == Exact
  {
    var physical := LowerAll(filters, schema).value;
    var columns := ScanColumns(table);
    FinalizeExact(physical, columns);
    forall i | 0 <= i < |filters|
      ensures Covered(physical[i], columns) <==> Supports(table, filters[i]) == Exact
    {
      LowerAllAt(filters, schema, i);
      forall j | 0 <= j < |columns|
        ensures OnlyColumn(physical[i], columns[j]) == OnlyLogicalColumn(filters[i], columns[j])
      {
        LowerKeepsColumns(filters[i], schema, columns[j]);
      }
      assert columns == PushdownColumns(table);
      if Covered(physical[i], columns) {
        var j :| 0 <= j < |columns| && OnlyColumn(physical[i], columns[j]);
        assert OnlyLogicalColumn(filters[i], PushdownColumns(table)[j]);
      }
    }
  }

  lemma {:induction false} LowerAllAt(es: seq<LogicalExpr>, schema: seq<string>, i: nat)
    requires LowerAll(es, schema).Some? && i < |es|
    ensures Lower(es[i], schema) == Some(LowerAll(es, schema).value[i])
    decreases |es|
  {
    if i > 0 {
      LowerAllAt(es[1..], schema, i - 1);
    }
  }
}
