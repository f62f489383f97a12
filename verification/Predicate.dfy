/** Filter expressions of the system tables: evaluation, column checks, rewriting. */
module Predicate {
  import opened Arrow
  import opened Text

  datatype Value = VNull | VBool(b: bool) | VInt(n: int) | VText(s: string)

  /** The outcome of evaluating an expression: a value, which may be null, or an error. */
  datatype Outcome = Val(v: Value) | Fail

  /** A physical expression; `Call` stands for every operator but the conjunction. */
  datatype Expr =
    | Column(name: string, index: nat)
    | Literal(v: Value)
    | And(left: Expr, right: Expr)
    | Call(op: string, args: seq<Expr>)

  /**
  The meaning of the operators. An operator sees the outcomes of its operands, errors
  included, so that operators which skip operands are covered; whether the conjunction
  skips its right operand after a false left one is left open.
  */
  datatype Semantics = Semantics(apply: (string, seq<Outcome>) -> Outcome, shortCircuit: bool)

  /** Conjunction in three-valued logic. */
  function Conjoin(sem: Semantics, l: Outcome, r: Outcome): Outcome {
    match (l, r)
    case (Val(VBool(false)), _) =>
      if sem.shortCircuit || (r.Val? && (r.v.VBool? || r.v.VNull?)) then Val(VBool(false)) else Fail
    case (Val(VBool(true)), Val(VBool(b))) => Val(VBool(b))
    case (Val(VBool(true)), Val(VNull)) => Val(VNull)
    case (Val(VNull), Val(VBool(false))) => Val(VBool(false))
    case (Val(VNull), Val(VBool(true))) => Val(VNull)
    case (Val(VNull), Val(VNull)) => Val(VNull)
    case _ => Fail
  }

  /** A physical column reads the row by position. */
  function Eval(sem: Semantics, e: Expr, row: seq<Value>): Outcome
    decreases e, 1
  {
    match e
    case Column(_, index) => if index < |row| then Val(row[index]) else Fail
    case Literal(v) => Val(v)
    case And(l, r) => Conjoin(sem, Eval(sem, l, row), Eval(sem, r, row))
    case Call(op, args) => sem.apply(op, EvalAll(sem, args, row))
  }

  function EvalAll(sem: Semantics, es: seq<Expr>, row: seq<Value>): (r: seq<Outcome>)
    ensures |r| == |es|
    decreases es, 0
  {
    if es == [] then [] else [Eval(sem, es[0], row)] + EvalAll(sem, es[1..], row)
  }

  // Which column an expression is about

  /** Every column reference has the given name; true of an expression without columns. */
  predicate OnlyColumn(e: Expr, column: string)
    decreases e, 1
  {
    match e
    case Column(name, _) => name == column
    case Literal(_) => true
    case And(l, r) => OnlyColumn(l, column) && OnlyColumn(r, column)
    case Call(_, args) => OnlyColumns(args, column)
  }

  predicate OnlyColumns(es: seq<Expr>, column: string)
    decreases es, 0
  {
    es == [] || (OnlyColumn(es[0], column) && OnlyColumns(es[1..], column))
  }

  lemma {:induction false} OnlyColumnsConcat(a: seq<Expr>, b: seq<Expr>, column: string)
    ensures OnlyColumns(a + b, column) == (OnlyColumns(a, column) && OnlyColumns(b, column))
    decreases |a|
  {
    if a == [] {
      assert a + b == b;
    } else {
      assert (a + b)[1..] == a[1..] + b;
      OnlyColumnsConcat(a[1..], b, column);
    }
  }

  function Children(e: Expr): seq<Expr> {
    match e
    case And(l, r) => [l, r]
    case Call(_, args) => args
    case _ => []
  }

  function Size(e: Expr): nat
    decreases e, 1
  {
    match e
    case And(l, r) => 1 + Size(l) + Size(r)
    case Call(_, args) => 1 + Sizes(args)
    case _ => 1
  }

  function Sizes(es: seq<Expr>): nat
    decreases es, 0
  {
    if es == [] then 0 else Size(es[0]) + Sizes(es[1..])
  }

  lemma {:induction false} SizesConcat(a: seq<Expr>, b: seq<Expr>)
    ensures Sizes(a + b) == Sizes(a) + Sizes(b)
    decreases |a|
  {
    if a == [] {
      assert a + b == b;
    } else {
      assert (a + b)[1..] == a[1..] + b;
      SizesConcat(a[1..], b);
    }
  }

  lemma ChildrenSize(e: Expr)
    ensures Size(e) == 1 + Sizes(Children(e))
  {
    if e.And? {
      assert Children(e)[1..] == [e.right] && [e.right][1..] == [];
      assert Sizes([e.right]) == Size(e.right) + Sizes([e.right][1..]);
    }
  }

  lemma ChildrenOnly(e: Expr, column: string)
    requires !e.Column?
    ensures OnlyColumn(e, column) == OnlyColumns(Children(e), column)
  {
    if e.And? {
      assert Children(e)[1..] == [e.right] && [e.right][1..] == [];
      assert OnlyColumns([e.right], column) == (OnlyColumn(e.right, column) && OnlyColumns([e.right][1..], column));
    }
  }

  /** `is_column_physical_predicate`: a pre-order walk that stops at the first other column. */
  method IsColumnPhysicalPredicate(e: Expr, column: string) returns (valid: bool)
    ensures valid == OnlyColumn(e, column)
  {
    valid := true;
    var pending := [e];
    assert [e][1..] == [];
    assert OnlyColumns([e], column) == OnlyColumn(e, column);
    while pending != []
      invariant valid && OnlyColumns(pending, column) == OnlyColumn(e, column)
      decreases Sizes(pending)
    {
      var next, rest := pending[0], pending[1..];
      if next.Column? {
        if next.name != column {
          valid := false;
          return;
        }
      } else {
        ChildrenOnly(next, column);
      }
      ChildrenSize(next);
      SizesConcat(Children(next), rest);
      OnlyColumnsConcat(Children(next), rest, column);
      assert OnlyColumns(pending, column) == (OnlyColumn(next, column) && OnlyColumns(rest, column));
      pending := Children(next) + rest;
    }
  }

  // The evaluator of one column's predicate

  const FIELD_NAME := "value"

  /** Every column reference becomes the single field of the evaluator's record. */
  function Rewrite(e: Expr): Expr
    decreases e, 1
  {
    match e
    case Column(_, _) => Column(FIELD_NAME, 0)
    case Literal(_) => e
    case And(l, r) => And(Rewrite(l), Rewrite(r))
    case Call(op, args) => Call(op, RewriteAll(args))
  }

  function RewriteAll(es: seq<Expr>): (r: seq<Expr>)
    ensures |r| == |es|
    decreases es, 0
  {
    if es == [] then [] else [Rewrite(es[0])] + RewriteAll(es[1..])
  }

  /** `ArrowPredicateEvaluator::evaluate`: a null or a non-boolean result is an error. */
  function Evaluate(sem: Semantics, predicate_: Expr, value: Value): Result<bool> {
    match Eval(sem, predicate_, [value])
    case Val(VBool(b)) => Ok(b)
    case _ => Err(Internal)
  }

  /** Every column reference names the column at its position. */
  predicate Resolved(e: Expr, schema: seq<string>)
    decreases e, 1
  {
    match e
    case Column(name, index) => index < |schema| && schema[index] == name
    case Literal(_) => true
    case And(l, r) => Resolved(l, schema) && Resolved(r, schema)
    case Call(_, args) => AllResolved(args, schema)
  }

  predicate AllResolved(es: seq<Expr>, schema: seq<string>)
    decreases es, 0
  {
    es == [] || (Resolved(es[0], schema) && AllResolved(es[1..], schema))
  }

  /** An expression about one column means the same on that column's value alone. */
  lemma {:induction false} RewritePreservesMeaning(sem: Semantics, e: Expr, schema: seq<string>, row: seq<Value>, at: nat)
    requires |row| == |schema| && Distinct(schema) && Resolved(e, schema)
    requires at < |schema| && OnlyColumn(e, schema[at])
    ensures Eval(sem, Rewrite(e), [row[at]]) == Eval(sem, e, row)
    decreases e, 1
  {
    match e
    case Column(name, index) =>
      assert index == at;
    case Literal(_) =>
    case And(l, r) =>
      RewritePreservesMeaning(sem, l, schema, row, at);
      RewritePreservesMeaning(sem, r, schema, row, at);
    case Call(op, args) =>
      RewriteAllPreserves(sem, args, schema, row, at);
  }

  lemma {:induction false} RewriteAllPreserves(sem: Semantics, es: seq<Expr>, schema: seq<string>, row: seq<Value>, at: nat)
    requires |row| == |schema| && Distinct(schema) && AllResolved(es, schema)
    requires at < |schema| && OnlyColumns(es, schema[at])
    ensures EvalAll(sem, RewriteAll(es), [row[at]]) == EvalAll(sem, es, row)
    decreases es, 0
  {
    if es != [] {
      RewritePreservesMeaning(sem, es[0], schema, row, at);
      RewriteAllPreserves(sem, es[1..], schema, row, at);
      assert RewriteAll(es)[1..] == RewriteAll(es[1..]);
    }
  }
}
