/**
 Skipping a test because an enclosing condition can only be true if the column has a value: when
 the lists that the first pass infers are sound, and when the mutator may rely on them.
 */
module SkipLists {
  import opened Sql
  import opened Completions
  import opened Mutator
  import opened TrueVar
  import opened Walker

  /** Every column in scope that stands for a has a value. */
  ghost predicate Valued(chain: Chain, env: Env, a: Attr) {
    forall t: Term :: t.Column? && InScope(chain, t) && AttrOf(chain, t) == a ==> TermValue(env, t).Val?
  }

  predicate InChain(chain: Chain, a: Attr) {
    exists l, n, i :: 0 <= l < |chain| && 0 <= n < |chain[l]| && 0 <= i < |chain[l][n]| && chain[l][n][i] == a
  }

  lemma ObeysMore(known: set<Attr>, more: set<Attr>, chain: Chain, env: Env)
    requires EnvObeys(known, chain, env) && forall a :: a in more ==> Valued(chain, env, a)
    ensures EnvObeys(known + more, chain, env)
  {
    forall l, n | 0 <= l < |env| && 0 <= n < |env[l]| ensures RowObeys(known + more, chain[l][n], env[l][n]) {
      assert RowObeys(known, chain[l][n], env[l][n]);
      forall i | 0 <= i < |chain[l][n]| && chain[l][n][i] in known + more ensures env[l][n][i].Val? {
        var t := Column(l, n + 1, i + 1);
        assert InScope(chain, t) && AttrOf(chain, t) == chain[l][n][i];
        if chain[l][n][i] in more { assert TermValue(env, t).Val?; }
      }
    }
  }

  lemma ObeysLess(known: set<Attr>, fewer: set<Attr>, chain: Chain, env: Env)
    requires EnvObeys(known, chain, env) && fewer <= known
    ensures EnvObeys(fewer, chain, env)
  {
    forall l, n | 0 <= l < |env| && 0 <= n < |env[l]| ensures RowObeys(fewer, chain[l][n], env[l][n]) {
      assert RowObeys(known, chain[l][n], env[l][n]);
    }
  }

  lemma ObeysValued(known: set<Attr>, chain: Chain, env: Env, a: Attr)
    requires EnvObeys(known, chain, env) && (a in known || !InChain(chain, a))
    ensures Valued(chain, env, a)
  {
    forall t: Term | t.Column? && InScope(chain, t) && AttrOf(chain, t) == a ensures TermValue(env, t).Val? {
      assert chain[t.level][t.varno - 1][t.attno - 1] == a;
      assert RowObeys(known, chain[t.level][t.varno - 1], env[t.level][t.varno - 1]);
    }
  }

  /** What a subquery says about outer columns holds outside. */
  lemma ValuedOutside(scope: seq<seq<Attr>>, row: Scope, chain: Chain, env: Env, a: Attr)
    requires Valued([scope] + chain, [row] + env, a)
    ensures Valued(chain, env, a)
  {
    forall t: Term | t.Column? && InScope(chain, t) && AttrOf(chain, t) == a ensures TermValue(env, t).Val? {
      var u := Column(t.level + 1, t.varno, t.attno);
      assert InScope([scope] + chain, u) && AttrOf([scope] + chain, u) == a;
      assert TermValue([row] + env, u) == TermValue(env, t);
    }
  }

  lemma ExtendObeys(cat: Catalog, db: Database, chain: Chain, env: Env, rels: seq<nat>, pick: seq<nat>)
    requires DbObeys(cat, db) && EnvObeys(cat.notNull, chain, env) && Picks(db, rels, pick)
    ensures EnvObeys(cat.notNull, [ScopeOf(cat, rels)] + chain, [Picked(db, rels, pick)] + env)
  {
    forall n | 0 <= n < |rels| ensures RowObeys(cat.notNull, ScopeOf(cat, rels)[n], Picked(db, rels, pick)[n]) {
      assert RowObeys(cat.notNull, Columns(cat, rels[n]), Rows(db, rels[n])[pick[n]]);
    }
  }

  // ----- when the inferred lists are sound -----

  /** Each base relation occurs once in every scope chain of c. */
  ghost predicate OneEach(cat: Catalog, chain: Chain, c: Cond)
    decreases c
  {
    match c
    case And(cs) => forall i :: 0 <= i < |cs| ==> OneEach(cat, chain, cs[i])
    case Or(cs) => forall i :: 0 <= i < |cs| ==> OneEach(cat, chain, cs[i])
    case Not(a) => OneEach(cat, chain, a)
    case Exists(rels, q) => OnceOnly([ScopeOf(cat, rels)] + chain) && OneEach(cat, [ScopeOf(cat, rels)] + chain, q)
    case _ => true
  }

  /** No list for "to be false" passes an EXISTS with an outer attribute that may be null. */
  predicate Grounded(cat: Catalog, chain: Chain, want: bool, c: Cond)
    requires WellScoped(cat, chain, c)
    decreases c
  {
    match c
    case And(cs) => forall i :: 0 <= i < |cs| ==> Grounded(cat, chain, want, cs[i])
    case Or(cs) => forall i :: 0 <= i < |cs| ==> Grounded(cat, chain, want, cs[i])
    case Not(a) => Grounded(cat, chain, !want, a)
    case Exists(rels, q) =>
      var inner := [ScopeOf(cat, rels)] + chain;
      if want then Grounded(cat, inner, want, q)
      else forall a :: a in Needed(cat, inner, false, q) ==> a in cat.notNull || !InChain(chain, a)
    case _ => true
  }

  /** r is c with IS NULL tests in front of some comparisons at negative polarity. */
  predicate Shaped(positive: bool, c: Cond, r: Cond)
    decreases c
  {
    match c
    case Compare(_, _) =>
      r == c || (!positive && r.Or? && |r.args| > 0 && r.args[|r.args| - 1] == c
                 && forall i :: 0 <= i < |r.args| - 1 ==> r.args[i].IsNull?)
    case And(cs) => r.And? && |r.args| == |cs| && forall i :: 0 <= i < |cs| ==> Shaped(positive, cs[i], r.args[i])
    case Or(cs) => r.Or? && |r.args| == |cs| && forall i :: 0 <= i < |cs| ==> Shaped(positive, cs[i], r.args[i])
    case Not(a) => r.Not? && Shaped(!positive, a, r.arg)
    case Exists(rels, q) => r.Exists? && r.rels == rels && Shaped(positive, q, r.quals)
    case _ => r == c
  }

  /** The value that the list for this polarity is about. */
  function Wanted(positive: bool): Truth {
    if positive then True else False
  }

  /**
   If a rewritten condition is true (at positive polarity) or false (at negative polarity), every
   column on the corresponding list of the original has a value, subqueries included.
   */
  lemma {:induction false} NeededValued(ops: Operators, cat: Catalog, db: Database, chain: Chain, env: Env,
                                        positive: bool, c: Cond, r: Cond, a: Attr)
    requires WellScoped(cat, chain, c) && Shaped(positive, c, r)
    requires OnceOnly(chain) && OneEach(cat, chain, c) && Grounded(cat, chain, positive, c)
    requires EnvObeys(cat.notNull, chain, env) && DbObeys(cat, db)
    requires Eval(ops, db, env, r) == Wanted(positive) && a in Needed(cat, chain, positive, c)
    ensures Valued(chain, env, a)
    decreases c
  {
    match c
    case Compare(op, ts) => ComparisonValued(ops, db, chain, env, op, ts, a);
    case And(cs) => NeededValuedArgs(ops, cat, db, chain, env, positive, positive, cs, r.args, a);
    case Or(cs) => NeededValuedArgs(ops, cat, db, chain, env, positive, !positive, cs, r.args, a);
    case Not(b) => NeededValued(ops, cat, db, chain, env, !positive, b, r.arg, a);
    case Exists(rels, q) =>
      if positive {
        var pick :| Picks(db, rels, pick) && Eval(ops, db, [Picked(db, rels, pick)] + env, r.quals) == True;
        ExtendObeys(cat, db, chain, env, rels, pick);
        NeededValued(ops, cat, db, [ScopeOf(cat, rels)] + chain, [Picked(db, rels, pick)] + env, true, q, r.quals, a);
        ValuedOutside(ScopeOf(cat, rels), Picked(db, rels, pick), chain, env, a);
      } else {
        ObeysValued(cat.notNull, chain, env, a);
      }
  }

  lemma ComparisonValued(ops: Operators, db: Database, chain: Chain, env: Env, op: nat, ts: seq<Term>, a: Attr)
    requires (forall i :: 0 <= i < |ts| ==> InScope(chain, ts[i])) && OnceOnly(chain)
    requires Eval(ops, db, env, Compare(op, ts)) == True && a in Dedup(ColumnsOf(chain, ts))
    ensures Valued(chain, env, a)
  {
    DedupMeans(ColumnsOf(chain, ts));
    ColumnsOfMembers(chain, ts, a);
    var i :| 0 <= i < |ts| && ts[i].Column? && AttrOf(chain, ts[i]) == a;
    assert TermValues(env, ts)[i].Val?;
  }

  lemma {:induction false} NeededValuedArgs(ops: Operators, cat: Catalog, db: Database, chain: Chain, env: Env,
                                            positive: bool, all: bool, cs: seq<Cond>, rs: seq<Cond>, a: Attr)
    requires |rs| == |cs|
    requires forall i :: 0 <= i < |cs| ==> WellScoped(cat, chain, cs[i]) && Shaped(positive, cs[i], rs[i])
    requires OnceOnly(chain)
    requires forall i :: 0 <= i < |cs| ==> OneEach(cat, chain, cs[i]) && Grounded(cat, chain, positive, cs[i])
    requires EnvObeys(cat.notNull, chain, env) && DbObeys(cat, db)
    requires all ==> forall i :: 0 <= i < |cs| ==> Eval(ops, db, env, rs[i]) == Wanted(positive)
    requires !all ==> exists i :: 0 <= i < |cs| && Eval(ops, db, env, rs[i]) == Wanted(positive)
    requires var f := Flatten(NeededArgs(cat, chain, positive, cs));
      a in if all then Dedup(f) else Occurring(f, f, |cs|)
    ensures Valued(chain, env, a)
    decreases cs
  {
    var ls := NeededArgs(cat, chain, positive, cs);
    if all {
      DedupMeans(Flatten(ls));
      FlattenMembers(ls, a);
      var i :| 0 <= i < |ls| && a in ls[i];
      NeededValued(ops, cat, db, chain, env, positive, cs[i], rs[i], a);
    } else {
      forall i | 0 <= i < |ls| ensures Distinct(ls[i]) { NeededDistinct(cat, chain, positive, cs[i]); }
      InterIsIntersection(ls, a);
      var i :| 0 <= i < |cs| && Eval(ops, db, env, rs[i]) == Wanted(positive);
      assert a in ls[i];
      NeededValued(ops, cat, db, chain, env, positive, cs[i], rs[i], a);
    }
  }

  lemma {:induction false} ShapedSelf(positive: bool, c: Cond)
    ensures Shaped(positive, c, c)
    decreases c
  {
    match c
    case And(cs) => forall i | 0 <= i < |cs| ensures Shaped(positive, cs[i], cs[i]) { ShapedSelf(positive, cs[i]); }
    case Or(cs) => forall i | 0 <= i < |cs| ensures Shaped(positive, cs[i], cs[i]) { ShapedSelf(positive, cs[i]); }
    case Not(a) => ShapedSelf(!positive, a);
    case Exists(_, q) => ShapedSelf(positive, q);
    case _ =>
  }

  /** Not-null inference through subqueries: what the lists of a condition promise about its own value. */
  lemma InferenceSound(ops: Operators, cat: Catalog, db: Database, chain: Chain, env: Env, want: bool, c: Cond, a: Attr)
    requires WellScoped(cat, chain, c) && OnceOnly(chain) && OneEach(cat, chain, c) && Grounded(cat, chain, want, c)
    requires EnvObeys(cat.notNull, chain, env) && DbObeys(cat, db)
    requires Eval(ops, db, env, c) == Wanted(want) && a in Needed(cat, chain, want, c)
    ensures Valued(chain, env, a)
  {
    ShapedSelf(want, c);
    NeededValued(ops, cat, db, chain, env, want, c, c, a);
  }
}
