/**
 The first pass of the hook: it records the scope chain of every query, the attributes that the
 schema declares NOT NULL, and, for every AND and OR, the attributes that must be non-null for the
 node to be true and for it to be false.
 */
module Walker {
  import opened Sql
  import opened Completions
  import opened TrueVar

  function ColumnsOf(chain: Chain, ts: seq<Term>): seq<Attr>
    requires forall i :: 0 <= i < |ts| ==> InScope(chain, ts[i])
  {
    if ts == [] then []
    else
      var t := ts[|ts| - 1];
      ColumnsOf(chain, ts[..|ts| - 1]) + (if t.Column? then [AttrOf(chain, t)] else [])
  }

  /** What must be non-null for c to be true (want) or to be false (!want). */
  function Needed(cat: Catalog, chain: Chain, want: bool, c: Cond): seq<Attr>
    requires WellScoped(cat, chain, c)
    decreases c
  {
    match c
    case Absent => []
    case Compare(_, ts) => if want then Dedup(ColumnsOf(chain, ts)) else []
    case IsNull(_) => []
    case And(cs) =>
      var all := Flatten(NeededArgs(cat, chain, want, cs));
      if want then Dedup(all) else Occurring(all, all, |cs|)
    case Or(cs) =>
      var all := Flatten(NeededArgs(cat, chain, want, cs));
      if want then Occurring(all, all, |cs|) else Dedup(all)
    case Not(a) => Needed(cat, chain, !want, a)
    case Exists(rels, q) => Needed(cat, [ScopeOf(cat, rels)] + chain, want, q)
  }

  function NeededArgs(cat: Catalog, chain: Chain, want: bool, cs: seq<Cond>): (ls: seq<seq<Attr>>)
    requires forall i :: 0 <= i < |cs| ==> WellScoped(cat, chain, cs[i])
    ensures |ls| == |cs|
    ensures forall i :: 0 <= i < |cs| ==> ls[i] == Needed(cat, chain, want, cs[i])
    decreases cs
  {
    if cs == [] then [] else [Needed(cat, chain, want, cs[0])] + NeededArgs(cat, chain, want, cs[1..])
  }

  // ----- what is on a list -----

  /**
   a must be non-null for c to be true (want) or false (!want), as far as can be told from its
   comparisons: one argument says so where all of them have to have the value, all say so where one is enough.
   */
  predicate Demands(cat: Catalog, chain: Chain, want: bool, c: Cond, a: Attr)
    requires WellScoped(cat, chain, c)
    decreases c
  {
    match c
    case Absent => false
    case Compare(_, ts) => want && exists i :: 0 <= i < |ts| && ts[i].Column? && AttrOf(chain, ts[i]) == a
    case IsNull(_) => false
    case And(cs) =>
      if want then exists i :: 0 <= i < |cs| && Demands(cat, chain, want, cs[i], a)
      else |cs| > 0 && forall i :: 0 <= i < |cs| ==> Demands(cat, chain, want, cs[i], a)
    case Or(cs) =>
      if want then |cs| > 0 && forall i :: 0 <= i < |cs| ==> Demands(cat, chain, want, cs[i], a)
      else exists i :: 0 <= i < |cs| && Demands(cat, chain, want, cs[i], a)
    case Not(b) => Demands(cat, chain, !want, b, a)
    case Exists(rels, q) => Demands(cat, [ScopeOf(cat, rels)] + chain, want, q, a)
  }

  /** The lists hold exactly that. */
  lemma {:induction false} NeededExactly(cat: Catalog, chain: Chain, want: bool, c: Cond, a: Attr)
    requires WellScoped(cat, chain, c)
    ensures a in Needed(cat, chain, want, c) <==> Demands(cat, chain, want, c, a)
    decreases c
  {
    match c
    case Compare(_, ts) =>
      DedupMeans(ColumnsOf(chain, ts));
      ColumnsOfExactly(chain, ts, a);
    case And(cs) => NeededExactlyArgs(cat, chain, want, cs, a);
    case Or(cs) => NeededExactlyArgs(cat, chain, want, cs, a);
    case Not(b) => NeededExactly(cat, chain, !want, b, a);
    case Exists(rels, q) => NeededExactly(cat, [ScopeOf(cat, rels)] + chain, want, q, a);
    case _ =>
  }

  lemma {:induction false} NeededExactlyArgs(cat: Catalog, chain: Chain, want: bool, cs: seq<Cond>, a: Attr)
    requires forall i :: 0 <= i < |cs| ==> WellScoped(cat, chain, cs[i])
    ensures var all := Flatten(NeededArgs(cat, chain, want, cs));
      && (a in Dedup(all) <==> exists i :: 0 <= i < |cs| && Demands(cat, chain, want, cs[i], a))
      && (a in Occurring(all, all, |cs|) <==>
        |cs| > 0 && forall i :: 0 <= i < |cs| ==> Demands(cat, chain, want, cs[i], a))
    decreases cs
  {
    var ls := NeededArgs(cat, chain, want, cs);
    forall i | 0 <= i < |cs| ensures (a in ls[i] <==> Demands(cat, chain, want, cs[i], a)) && Distinct(ls[i]) {
      NeededExactly(cat, chain, want, cs[i], a);
      NeededDistinct(cat, chain, want, cs[i]);
    }
    DedupMeans(Flatten(ls));
    FlattenMembers(ls, a);
    if cs != [] { InterIsIntersection(ls, a); }
  }

  lemma {:induction false} ColumnsOfExactly(chain: Chain, ts: seq<Term>, a: Attr)
    requires forall i :: 0 <= i < |ts| ==> InScope(chain, ts[i])
    ensures a in ColumnsOf(chain, ts) <==> exists i :: 0 <= i < |ts| && ts[i].Column? && AttrOf(chain, ts[i]) == a
  {
    if a in ColumnsOf(chain, ts) { ColumnsOfMembers(chain, ts, a); }
    if i :| 0 <= i < |ts| && ts[i].Column? && AttrOf(chain, ts[i]) == a {
      var last := |ts| - 1;
      if i < last {
        assert ts[..last][i] == ts[i];
        ColumnsOfExactly(chain, ts[..last], a);
      }
    }
  }

  // ----- soundness of the inference -----

  /** Trees of comparisons: no subquery, no IS NULL, no empty AND or OR. */
  predicate Plain(c: Cond) {
    match c
    case Compare(_, _) => true
    case And(cs) => |cs| > 0 && forall i :: 0 <= i < |cs| ==> Plain(cs[i])
    case Or(cs) => |cs| > 0 && forall i :: 0 <= i < |cs| ==> Plain(cs[i])
    case Not(a) => Plain(a)
    case _ => false
  }

  lemma {:induction false} NeededDistinct(cat: Catalog, chain: Chain, want: bool, c: Cond)
    requires WellScoped(cat, chain, c)
    ensures Distinct(Needed(cat, chain, want, c))
    decreases c
  {
    match c
    case Compare(_, ts) => DedupMeans(ColumnsOf(chain, ts));
    case And(cs) =>
      var all := Flatten(NeededArgs(cat, chain, want, cs));
      DedupMeans(all);
      OccurringMeans(all, all, |cs|);
    case Or(cs) =>
      var all := Flatten(NeededArgs(cat, chain, want, cs));
      DedupMeans(all);
      OccurringMeans(all, all, |cs|);
    case Not(a) => NeededDistinct(cat, chain, !want, a);
    case Exists(rels, q) => NeededDistinct(cat, [ScopeOf(cat, rels)] + chain, want, q);
    case _ =>
  }

  /** Some column in scope that stands for attribute a has a value in env. */
  ghost predicate HasValue(chain: Chain, env: Env, a: Attr) {
    exists t: Term :: t.Column? && InScope(chain, t) && AttrOf(chain, t) == a && TermValue(env, t).Val?
  }

  lemma {:induction false} ColumnsOfMembers(chain: Chain, ts: seq<Term>, a: Attr)
    requires forall i :: 0 <= i < |ts| ==> InScope(chain, ts[i])
    requires a in ColumnsOf(chain, ts)
    ensures exists i :: 0 <= i < |ts| && ts[i].Column? && AttrOf(chain, ts[i]) == a
  {
    var last := |ts| - 1;
    if ts[last].Column? && AttrOf(chain, ts[last]) == a {
    } else {
      ColumnsOfMembers(chain, ts[..last], a);
      var i :| 0 <= i < last && ts[..last][i].Column? && AttrOf(chain, ts[..last][i]) == a;
      assert ts[i] == ts[..last][i];
    }
  }

  /**
   A condition that is true has values for its to-be-true list; one that is false has values for its
   to-be-false list.
   */
  lemma {:induction false} NeededSound(ops: Operators, cat: Catalog, db: Database, chain: Chain, env: Env, want: bool,
                                       c: Cond, a: Attr)
    requires WellScoped(cat, chain, c) && Plain(c)
    requires Eval(ops, db, env, c) == if want then True else False
    requires a in Needed(cat, chain, want, c)
    ensures HasValue(chain, env, a)
    decreases c
  {
    match c
    case Compare(op, ts) =>
      DedupMeans(ColumnsOf(chain, ts));
      ColumnsOfMembers(chain, ts, a);
      var i :| 0 <= i < |ts| && ts[i].Column? && AttrOf(chain, ts[i]) == a;
      assert TermValues(env, ts)[i].Val?;
    case And(cs) => NeededSoundArgs(ops, cat, db, chain, env, want, want, cs, a);
    case Or(cs) => NeededSoundArgs(ops, cat, db, chain, env, want, !want, cs, a);
    case Not(b) => NeededSound(ops, cat, db, chain, env, !want, b, a);
  }

  /**
   all: every argument has the wanted value and one list is enough; otherwise one argument has it and every
   list is needed.
   */
  lemma {:induction false} NeededSoundArgs(ops: Operators, cat: Catalog, db: Database, chain: Chain, env: Env,
                                           want: bool, all: bool, cs: seq<Cond>, a: Attr)
    requires |cs| > 0 && forall i :: 0 <= i < |cs| ==> WellScoped(cat, chain, cs[i]) && Plain(cs[i])
    requires all ==> forall i :: 0 <= i < |cs| ==> Eval(ops, db, env, cs[i]) == if want then True else False
    requires !all ==> exists i :: 0 <= i < |cs| && Eval(ops, db, env, cs[i]) == if want then True else False
    requires var f := Flatten(NeededArgs(cat, chain, want, cs)); a in if all then Dedup(f) else Occurring(f, f, |cs|)
    ensures HasValue(chain, env, a)
    decreases cs
  {
    var ls := NeededArgs(cat, chain, want, cs);
    if all {
      DedupMeans(Flatten(ls));
      FlattenMembers(ls, a);
      var i :| 0 <= i < |ls| && a in ls[i];
      NeededSound(ops, cat, db, chain, env, want, cs[i], a);
    } else {
      forall i | 0 <= i < |ls| ensures Distinct(ls[i]) { NeededDistinct(cat, chain, want, cs[i]); }
      InterIsIntersection(ls, a);
      var i :| 0 <= i < |cs| && Eval(ops, db, env, cs[i]) == if want then True else False;
      assert a in ls[i];
      NeededSound(ops, cat, db, chain, env, want, cs[i], a);
    }
  }

  /** Each base relation occurs once among the relations in scope. */
  ghost predicate OnceOnly(chain: Chain) {
    forall t: Term, u: Term ::
      t.Column? && u.Column? && InScope(chain, t) && InScope(chain, u) && AttrOf(chain, t) == AttrOf(chain, u) ==>
        t == u
  }

  /** With each relation in scope once, every column that an inferred attribute stands for has a value. */
  lemma NeededSoundOnce(ops: Operators, cat: Catalog, db: Database, chain: Chain, env: Env, want: bool, c: Cond,
                        t: Term)
    requires WellScoped(cat, chain, c) && Plain(c) && OnceOnly(chain)
    requires Eval(ops, db, env, c) == if want then True else False
    requires t.Column? && InScope(chain, t) && AttrOf(chain, t) in Needed(cat, chain, want, c)
    ensures TermValue(env, t).Val?
  {
    NeededSound(ops, cat, db, chain, env, want, c, AttrOf(chain, t));
    var u: Term :| u.Column? && InScope(chain, u) && AttrOf(chain, u) == AttrOf(chain, t) && TermValue(env, u).Val?;
    assert u == t;
  }

  predicate NoNullTest(c: Cond) {
    match c
    case IsNull(_) => false
    case And(cs) => forall i :: 0 <= i < |cs| ==> NoNullTest(cs[i])
    case Or(cs) => forall i :: 0 <= i < |cs| ==> NoNullTest(cs[i])
    case Not(a) => NoNullTest(a)
    case Exists(_, q) => NoNullTest(q)
    case _ => true
  }

  lemma FlattenCons(cat: Catalog, chain: Chain, want: bool, cs: seq<Cond>)
    requires cs != [] && forall i :: 0 <= i < |cs| ==> WellScoped(cat, chain, cs[i])
    ensures Flatten(NeededArgs(cat, chain, want, cs)) ==
      Needed(cat, chain, want, cs[0]) + Flatten(NeededArgs(cat, chain, want, cs[1..]))
  {
    assert NeededArgs(cat, chain, want, cs)[1..] == NeededArgs(cat, chain, want, cs[1..]);
  }
}
