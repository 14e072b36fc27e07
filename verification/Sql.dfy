/**
 Conditions of SQL queries as the post-parse hook sees them, and their three-valued meaning
 (truth tables of section 8.12 and exists predicate of section 8.8 of ISO/IEC 9075:1992).

 A condition is an expression tree of the parser: operator calls, IS NULL tests, n-ary AND and
 OR, NOT, and EXISTS over a subquery.  Columns carry de Bruijn style level numbers: level 0 is the
 query the condition belongs to, level 1 the enclosing query, and so on.
 */
module Sql {

  datatype Truth = False | Unknown | True

  datatype Value = Null | Val(v: int)

  /** An argument of an operator: a column (varlevelsup, varno, varattno) or a literal. */
  datatype Term =
    | Column(level: nat, varno: nat, attno: nat)
    | Literal(value: Value)

  datatype Cond =
    | Absent                                      // no WHERE clause
    | Compare(op: nat, terms: seq<Term>)          // an OpExpr whose arguments are flat
    | IsNull(term: Term)                          // a NullTest
    | And(args: seq<Cond>)
    | Or(args: seq<Cond>)
    | Not(arg: Cond)
    | Exists(rels: seq<nat>, quals: Cond)         // an EXISTS SubLink over base relations

  type Row = seq<Value>
  type Scope = seq<Row>        // one row for each relation of a FROM list
  type Env = seq<Scope>        // innermost scope first
  type Database = map<nat, seq<Row>>

  /** What each operator computes on non-null arguments. */
  type Operators = (nat, seq<int>) -> bool

  function Rows(db: Database, rel: nat): seq<Row> {
    if rel in db then db[rel] else []
  }

  function TermValue(env: Env, t: Term): Value {
    match t
    case Literal(v) => v
    case Column(l, n, a) =>
      if l < |env| && 1 <= n <= |env[l]| && 1 <= a <= |env[l][n - 1]| then env[l][n - 1][a - 1] else Null
  }

  function TermValues(env: Env, ts: seq<Term>): (vs: seq<Value>)
    ensures |vs| == |ts|
    ensures forall i :: 0 <= i < |ts| ==> vs[i] == TermValue(env, ts[i])
  {
    seq(|ts|, i requires 0 <= i < |ts| => TermValue(env, ts[i]))
  }

  predicate NullFree(vs: seq<Value>) {
    forall i :: 0 <= i < |vs| ==> vs[i].Val?
  }

  function Ints(vs: seq<Value>): seq<int>
    requires NullFree(vs)
  {
    seq(|vs|, i requires 0 <= i < |vs| => vs[i].v)
  }

  /** Operators are strict: a null argument makes the comparison unknown. */
  function Apply(ops: Operators, op: nat, vs: seq<Value>): Truth {
    if !NullFree(vs) then Unknown else if ops(op, Ints(vs)) then True else False
  }

  /** An index for each relation of a FROM list: one element of the cross product. */
  predicate Picks(db: Database, rels: seq<nat>, pick: seq<nat>) {
    && |pick| == |rels|
    && forall i :: 0 <= i < |rels| ==> pick[i] < |Rows(db, rels[i])|
  }

  function Picked(db: Database, rels: seq<nat>, pick: seq<nat>): (scope: Scope)
    requires Picks(db, rels, pick)
    ensures |scope| == |rels|
    ensures forall i :: 0 <= i < |rels| ==> scope[i] == Rows(db, rels[i])[pick[i]]
  {
    seq(|rels|, i requires 0 <= i < |rels| => Rows(db, rels[i])[pick[i]])
  }

  ghost function Eval(ops: Operators, db: Database, env: Env, c: Cond): Truth
    decreases c
  {
    match c
    case Absent => True
    case Compare(op, ts) => Apply(ops, op, TermValues(env, ts))
    case IsNull(t) => if TermValue(env, t).Null? then True else False
    case And(cs) =>
      if forall i :: 0 <= i < |cs| ==> Eval(ops, db, env, cs[i]) == True then True
      else if exists i :: 0 <= i < |cs| && Eval(ops, db, env, cs[i]) == False then False
      else Unknown
    case Or(cs) =>
      if exists i :: 0 <= i < |cs| && Eval(ops, db, env, cs[i]) == True then True
      else if forall i :: 0 <= i < |cs| ==> Eval(ops, db, env, cs[i]) == False then False
      else Unknown
    case Not(a) =>
      (match Eval(ops, db, env, a)
       case True => False
       case False => True
       case Unknown => Unknown)
    case Exists(rels, q) =>
      if exists pick :: Picks(db, rels, pick) && Eval(ops, db, [Picked(db, rels, pick)] + env, q) == True
      then True else False
  }
}
