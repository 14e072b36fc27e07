/**
 Databases with nulls, their completions, and what a polarity-directed weakening of a condition
 has to satisfy to return certain answers only.
 */
module Completions {
  import opened Sql

  /** A column of a base relation, the identity that the hook calls a "true variable". */
  datatype Attr = Attr(relid: nat, attno: nat)

  /** The columns of every relation in scope: scope, then position in FROM, then column. */
  type Chain = seq<seq<seq<Attr>>>

  datatype Catalog = Catalog(natts: map<nat, nat>, notNull: set<Attr>)

  function Natts(cat: Catalog, rel: nat): nat {
    if rel in cat.natts then cat.natts[rel] else 0
  }

  function Columns(cat: Catalog, rel: nat): (attrs: seq<Attr>)
    ensures |attrs| == Natts(cat, rel)
    ensures forall a :: 0 <= a < |attrs| ==> attrs[a] == Attr(rel, a + 1)
  {
    seq(Natts(cat, rel), a requires 0 <= a < Natts(cat, rel) => Attr(rel, a + 1))
  }

  function ScopeOf(cat: Catalog, rels: seq<nat>): (scope: seq<seq<Attr>>)
    ensures |scope| == |rels|
    ensures forall i :: 0 <= i < |rels| ==> scope[i] == Columns(cat, rels[i])
  {
    seq(|rels|, i requires 0 <= i < |rels| => Columns(cat, rels[i]))
  }

  predicate InScope(chain: Chain, t: Term) {
    t.Column? ==>
      t.level < |chain| && 1 <= t.varno <= |chain[t.level]| && 1 <= t.attno <= |chain[t.level][t.varno - 1]|
  }

  function AttrOf(chain: Chain, t: Term): Attr
    requires t.Column? && InScope(chain, t)
  {
    chain[t.level][t.varno - 1][t.attno - 1]
  }

  predicate KnownNotNull(chain: Chain, known: set<Attr>, t: Term) {
    t.Column? && InScope(chain, t) && AttrOf(chain, t) in known
  }

  // ----- completions: every null is replaced, independently, by some value -----

  ghost predicate CompletesRow(r: Row, r': Row) {
    |r| == |r'| && forall i :: 0 <= i < |r| ==> r'[i].Val? && (r[i].Val? ==> r'[i] == r[i])
  }

  ghost predicate CompletesRows(rs: seq<Row>, rs': seq<Row>) {
    |rs| == |rs'| && forall i :: 0 <= i < |rs| ==> CompletesRow(rs[i], rs'[i])
  }

  ghost predicate CompletesEnv(env: Env, env': Env) {
    |env| == |env'| && forall l :: 0 <= l < |env| ==> CompletesRows(env[l], env'[l])
  }

  ghost predicate CompletesDb(db: Database, db': Database) {
    forall rel: nat :: CompletesRows(Rows(db, rel), Rows(db', rel))
  }

  // ----- rows that obey the schema -----

  ghost predicate RowObeys(known: set<Attr>, attrs: seq<Attr>, r: Row) {
    |r| == |attrs| && forall a :: 0 <= a < |attrs| && attrs[a] in known ==> r[a].Val?
  }

  ghost predicate DbObeys(cat: Catalog, db: Database) {
    forall rel: nat, i :: 0 <= i < |Rows(db, rel)| ==> RowObeys(cat.notNull, Columns(cat, rel), Rows(db, rel)[i])
  }

  ghost predicate EnvObeys(known: set<Attr>, chain: Chain, env: Env) {
    && |chain| == |env|
    && forall l :: 0 <= l < |env| ==>
         && |chain[l]| == |env[l]|
         && forall n :: 0 <= n < |env[l]| ==> RowObeys(known, chain[l][n], env[l][n])
  }

  // ----- the fragment -----

  /** Never unknown: EXISTS, comparisons of NOT NULL columns, and what the connectives build from them. */
  predicate TwoValued(cat: Catalog, chain: Chain, c: Cond) {
    match c
    case Absent => true
    case Compare(_, ts) =>
      forall i :: 0 <= i < |ts| ==> if ts[i].Column? then KnownNotNull(chain, cat.notNull, ts[i])
        else ts[i] != Literal(Null)
    case IsNull(_) => true
    case And(cs) => forall i :: 0 <= i < |cs| ==> TwoValued(cat, chain, cs[i])
    case Or(cs) => forall i :: 0 <= i < |cs| ==> TwoValued(cat, chain, cs[i])
    case Not(a) => TwoValued(cat, chain, a)
    case Exists(_, _) => true
  }

  /** No IS NULL in the input; a NOT met at negative polarity applies to a condition that is never unknown. */
  predicate Supported(cat: Catalog, positive: bool, chain: Chain, c: Cond)
    decreases c
  {
    match c
    case Absent => true
    case Compare(_, _) => true
    case IsNull(_) => false
    case And(cs) => forall i :: 0 <= i < |cs| ==> Supported(cat, positive, chain, cs[i])
    case Or(cs) => forall i :: 0 <= i < |cs| ==> Supported(cat, positive, chain, cs[i])
    case Not(a) => Supported(cat, !positive, chain, a) && (positive || TwoValued(cat, chain, a))
    case Exists(rels, q) => Supported(cat, positive, [ScopeOf(cat, rels)] + chain, q)
  }

  // ----- weakening -----

  /** A comparison with IS NULL disjuncts in front: at least one for every column that may be null. */
  predicate WeakAtom(cat: Catalog, chain: Chain, ts: seq<Term>, c: Cond, r: Cond) {
    var needed := forall t ::
      t in ts && t.Column? && !KnownNotNull(chain, cat.notNull, t) ==> r.Or? && IsNull(t) in r.args;
    && needed
    && (r == c || (r.Or? && |r.args| > 0 && r.args[|r.args| - 1] == c
                   && forall i :: 0 <= i < |r.args| - 1 ==> r.args[i].IsNull?))
  }

  /** r is c with its comparisons weakened at negative polarity and untouched at positive polarity. */
  predicate Weakened(cat: Catalog, positive: bool, chain: Chain, c: Cond, r: Cond)
    decreases c
  {
    match c
    case Absent => r == c
    case Compare(_, ts) => if positive then r == c else WeakAtom(cat, chain, ts, c, r)
    case IsNull(_) => r == c
    case And(cs) =>
      r.And? && |r.args| == |cs| && forall i :: 0 <= i < |cs| ==> Weakened(cat, positive, chain, cs[i], r.args[i])
    case Or(cs) =>
      r.Or? && |r.args| == |cs| && forall i :: 0 <= i < |cs| ==> Weakened(cat, positive, chain, cs[i], r.args[i])
    case Not(a) => r.Not? && Weakened(cat, !positive, chain, a, r.arg)
    case Exists(rels, q) =>
      r.Exists? && r.rels == rels && Weakened(cat, positive, [ScopeOf(cat, rels)] + chain, q, r.quals)
  }

  lemma {:induction false} TwoValuedEval(ops: Operators, cat: Catalog, db: Database, chain: Chain, env: Env, c: Cond)
    requires TwoValued(cat, chain, c) && EnvObeys(cat.notNull, chain, env)
    ensures Eval(ops, db, env, c) != Unknown
    decreases c
  {
    match c
    case Compare(op, ts) =>
      forall i | 0 <= i < |ts| ensures TermValues(env, ts)[i].Val? { KnownTerm(cat, chain, env, ts[i]); }
    case And(cs) =>
      forall i | 0 <= i < |cs| ensures Eval(ops, db, env, cs[i]) != Unknown {
        TwoValuedEval(ops, cat, db, chain, env, cs[i]);
      }
    case Or(cs) =>
      forall i | 0 <= i < |cs| ensures Eval(ops, db, env, cs[i]) != Unknown {
        TwoValuedEval(ops, cat, db, chain, env, cs[i]);
      }
    case Not(a) => TwoValuedEval(ops, cat, db, chain, env, a);
    case _ =>
  }

  lemma KnownTerm(cat: Catalog, chain: Chain, env: Env, t: Term)
    requires EnvObeys(cat.notNull, chain, env)
    requires if t.Column? then KnownNotNull(chain, cat.notNull, t) else t != Literal(Null)
    ensures TermValue(env, t).Val?
  {
    if t.Column? { assert RowObeys(cat.notNull, chain[t.level][t.varno - 1], env[t.level][t.varno - 1]); }
  }

  lemma {:induction false} WeakenedTwoValued(cat: Catalog, chain: Chain, positive: bool, c: Cond, r: Cond)
    requires Weakened(cat, positive, chain, c, r) && TwoValued(cat, chain, c)
    ensures TwoValued(cat, chain, r)
    decreases c
  {
    match c
    case Compare(_, ts) =>
      if r != c { assert r.args[|r.args| - 1] == c; }
    case And(cs) =>
      forall i | 0 <= i < |cs| ensures TwoValued(cat, chain, r.args[i]) {
        WeakenedTwoValued(cat, chain, positive, cs[i], r.args[i]);
      }
    case Or(cs) =>
      forall i | 0 <= i < |cs| ensures TwoValued(cat, chain, r.args[i]) {
        WeakenedTwoValued(cat, chain, positive, cs[i], r.args[i]);
      }
    case Not(a) => WeakenedTwoValued(cat, chain, !positive, a, r.arg);
    case _ =>
  }

  /** A term known in the incomplete row has the same value in every completion. */
  lemma CompletedTerm(env: Env, env': Env, t: Term)
    requires CompletesEnv(env, env')
    ensures TermValue(env, t).Val? ==> TermValue(env', t) == TermValue(env, t)
  {
    if t.Column? && t.level < |env| && 1 <= t.varno <= |env[t.level]| {
      assert CompletesRows(env[t.level], env'[t.level]);
      assert CompletesRow(env[t.level][t.varno - 1], env'[t.level][t.varno - 1]);
    }
  }

  lemma CompletedAtom(ops: Operators, env: Env, env': Env, op: nat, ts: seq<Term>)
    requires CompletesEnv(env, env')
    requires NullFree(TermValues(env, ts))
    ensures Apply(ops, op, TermValues(env', ts)) == Apply(ops, op, TermValues(env, ts))
  {
    forall i | 0 <= i < |ts| ensures TermValues(env', ts)[i] == TermValues(env, ts)[i] {
      assert TermValues(env, ts)[i].Val?;
      CompletedTerm(env, env', ts[i]);
    }
    assert TermValues(env', ts) == TermValues(env, ts);
  }

  /** A term that is null here but not in a completion is a column that the schema lets be null. */
  lemma NullTermIsNullable(cat: Catalog, chain: Chain, env: Env, env': Env, t: Term)
    requires CompletesEnv(env, env') && EnvObeys(cat.notNull, chain, env)
    requires TermValue(env, t).Null? && TermValue(env', t).Val?
    ensures t.Column? && !KnownNotNull(chain, cat.notNull, t)
  {
    assert CompletesRows(env[t.level], env'[t.level]);
    assert CompletesRow(env[t.level][t.varno - 1], env'[t.level][t.varno - 1]);
    assert RowObeys(cat.notNull, chain[t.level][t.varno - 1], env[t.level][t.varno - 1]);
  }

  lemma WeakAtomSound(ops: Operators, cat: Catalog, db: Database, db': Database, chain: Chain, env: Env, env': Env,
                      op: nat, ts: seq<Term>, r: Cond)
    requires CompletesEnv(env, env') && EnvObeys(cat.notNull, chain, env)
    requires WeakAtom(cat, chain, ts, Compare(op, ts), r)
    ensures Eval(ops, db', env', Compare(op, ts)) == True ==> Eval(ops, db, env, r) == True
    ensures Eval(ops, db, env, r) == False ==> Eval(ops, db', env', Compare(op, ts)) == False
  {
    var c := Compare(op, ts);
    if NullFree(TermValues(env, ts)) {
      CompletedAtom(ops, env, env', op, ts);
      assert Eval(ops, db, env, c) == Eval(ops, db', env', c);
      if r != c { assert r.args[|r.args| - 1] == c; }
    } else if NullFree(TermValues(env', ts)) {
      var i :| 0 <= i < |ts| && TermValues(env, ts)[i].Null?;
      assert TermValues(env', ts)[i].Val?;
      NullTermIsNullable(cat, chain, env, env', ts[i]);
      assert IsNull(ts[i]) in r.args;
      var k :| 0 <= k < |r.args| && r.args[k] == IsNull(ts[i]);
      assert Eval(ops, db, env, r.args[k]) == True;
    } else {
      assert Eval(ops, db, env, c) == Unknown;
      if r != c { assert r.args[|r.args| - 1] == c; }
    }
  }

  lemma PickCompletes(db: Database, db': Database, rels: seq<nat>, pick: seq<nat>)
    requires CompletesDb(db, db')
    ensures Picks(db, rels, pick) <==> Picks(db', rels, pick)
    ensures Picks(db, rels, pick) ==> CompletesRows(Picked(db, rels, pick), Picked(db', rels, pick))
  {
    forall rel: nat ensures CompletesRows(Rows(db, rel), Rows(db', rel)) {}
  }

  lemma ExtendEnv(cat: Catalog, db: Database, db': Database, chain: Chain, env: Env, env': Env,
                  rels: seq<nat>, pick: seq<nat>)
    requires CompletesDb(db, db') && CompletesEnv(env, env')
    requires DbObeys(cat, db) && EnvObeys(cat.notNull, chain, env)
    requires Picks(db, rels, pick)
    ensures Picks(db', rels, pick)
    ensures CompletesEnv([Picked(db, rels, pick)] + env, [Picked(db', rels, pick)] + env')
    ensures EnvObeys(cat.notNull, [ScopeOf(cat, rels)] + chain, [Picked(db, rels, pick)] + env)
  {
    PickCompletes(db, db', rels, pick);
    forall n | 0 <= n < |rels|
      ensures RowObeys(cat.notNull, ScopeOf(cat, rels)[n], Picked(db, rels, pick)[n])
    {
      assert RowObeys(cat.notNull, Columns(cat, rels[n]), Rows(db, rels[n])[pick[n]]);
    }
  }

  /**
   Certain-answer soundness.  At positive polarity a condition that is true after weakening is true
   under every completion of the nulls.  At negative polarity a condition that is true under some
   completion is true after weakening, and one that is false after weakening is false under every
   completion.
   */
  lemma {:induction false} WeakenedSound(ops: Operators, cat: Catalog, db: Database, db': Database, chain: Chain,
                                         env: Env, env': Env,
                                         positive: bool, c: Cond, r: Cond)
    requires Weakened(cat, positive, chain, c, r) && Supported(cat, positive, chain, c)
    requires CompletesDb(db, db') && DbObeys(cat, db)
    requires CompletesEnv(env, env') && EnvObeys(cat.notNull, chain, env)
    ensures positive && Eval(ops, db, env, r) == True ==> Eval(ops, db', env', c) == True
    ensures !positive && Eval(ops, db', env', c) == True ==> Eval(ops, db, env, r) == True
    ensures !positive && Eval(ops, db, env, r) == False ==> Eval(ops, db', env', c) == False
    decreases c
  {
    match c
    case Absent =>
    case Compare(op, ts) =>
      if positive {
        if NullFree(TermValues(env, ts)) { CompletedAtom(ops, env, env', op, ts); }
      } else {
        WeakAtomSound(ops, cat, db, db', chain, env, env', op, ts, r);
      }
    case And(cs) => WeakenedSoundArgs(ops, cat, db, db', chain, env, env', positive, cs, r.args);
    case Or(cs) => WeakenedSoundArgs(ops, cat, db, db', chain, env, env', positive, cs, r.args);
    case Not(a) =>
      WeakenedSound(ops, cat, db, db', chain, env, env', !positive, a, r.arg);
      if !positive {
        WeakenedTwoValued(cat, chain, true, a, r.arg);
        TwoValuedEval(ops, cat, db, chain, env, r.arg);
      }
    case Exists(rels, q) =>
      forall pick | Picks(db, rels, pick)
        ensures Picks(db', rels, pick)
        ensures positive && Eval(ops, db, [Picked(db, rels, pick)] + env, r.quals) == True ==>
                  Eval(ops, db', [Picked(db', rels, pick)] + env', q) == True
        ensures !positive && Eval(ops, db', [Picked(db', rels, pick)] + env', q) == True ==>
                  Eval(ops, db, [Picked(db, rels, pick)] + env, r.quals) == True
      {
        ExtendEnv(cat, db, db', chain, env, env', rels, pick);
        WeakenedSound(ops, cat, db, db', [ScopeOf(cat, rels)] + chain,
                      [Picked(db, rels, pick)] + env, [Picked(db', rels, pick)] + env', positive, q, r.quals);
      }
      forall pick | Picks(db', rels, pick) ensures Picks(db, rels, pick) { PickCompletes(db, db', rels, pick); }
  }

  lemma {:induction false} WeakenedSoundArgs(ops: Operators, cat: Catalog, db: Database, db': Database, chain: Chain,
                                             env: Env, env': Env,
                                             positive: bool, cs: seq<Cond>, rs: seq<Cond>)
    requires |rs| == |cs|
    requires forall i ::
      0 <= i < |cs| ==> Weakened(cat, positive, chain, cs[i], rs[i]) && Supported(cat, positive, chain, cs[i])
    requires CompletesDb(db, db') && DbObeys(cat, db)
    requires CompletesEnv(env, env') && EnvObeys(cat.notNull, chain, env)
    ensures forall i :: 0 <= i < |cs| ==>
              && (positive && Eval(ops, db, env, rs[i]) == True ==> Eval(ops, db', env', cs[i]) == True)
              && (!positive && Eval(ops, db', env', cs[i]) == True ==> Eval(ops, db, env, rs[i]) == True)
              && (!positive && Eval(ops, db, env, rs[i]) == False ==> Eval(ops, db', env', cs[i]) == False)
    decreases cs
  {
    forall i | 0 <= i < |cs|
      ensures positive && Eval(ops, db, env, rs[i]) == True ==> Eval(ops, db', env', cs[i]) == True
      ensures !positive && Eval(ops, db', env', cs[i]) == True ==> Eval(ops, db, env, rs[i]) == True
      ensures !positive && Eval(ops, db, env, rs[i]) == False ==> Eval(ops, db', env', cs[i]) == False
    {
      WeakenedSound(ops, cat, db, db', chain, env, env', positive, cs[i], rs[i]);
    }
  }

  // ----- nothing changes where there is no null -----

  predicate WellScoped(cat: Catalog, chain: Chain, c: Cond)
    decreases c
  {
    match c
    case Absent => true
    case Compare(_, ts) => forall i :: 0 <= i < |ts| ==> InScope(chain, ts[i])
    case IsNull(t) => InScope(chain, t)
    case And(cs) => forall i :: 0 <= i < |cs| ==> WellScoped(cat, chain, cs[i])
    case Or(cs) => forall i :: 0 <= i < |cs| ==> WellScoped(cat, chain, cs[i])
    case Not(a) => WellScoped(cat, chain, a)
    case Exists(rels, q) => WellScoped(cat, [ScopeOf(cat, rels)] + chain, q)
  }

  predicate NoNullLiteral(c: Cond) {
    match c
    case Absent => true
    case Compare(_, ts) => forall i :: 0 <= i < |ts| ==> ts[i] != Literal(Null)
    case IsNull(t) => t != Literal(Null)
    case And(cs) => forall i :: 0 <= i < |cs| ==> NoNullLiteral(cs[i])
    case Or(cs) => forall i :: 0 <= i < |cs| ==> NoNullLiteral(cs[i])
    case Not(a) => NoNullLiteral(a)
    case Exists(_, q) => NoNullLiteral(q)
  }

  /**
   On a database without nulls a weakened condition keeps its meaning (a database completes itself when it
   has no null).
   */
  lemma {:induction false} WeakenedConservative(ops: Operators, cat: Catalog, db: Database, chain: Chain, env: Env,
                                                positive: bool, c: Cond, r: Cond)
    requires Weakened(cat, positive, chain, c, r) && WellScoped(cat, chain, r) && NoNullLiteral(r)
    requires CompletesDb(db, db) && DbObeys(cat, db)
    requires CompletesEnv(env, env) && EnvObeys(cat.notNull, chain, env)
    ensures Eval(ops, db, env, r) == Eval(ops, db, env, c)
    decreases c
  {
    match c
    case Compare(op, ts) =>
      if r != c {
        forall i | 0 <= i < |r.args| - 1 ensures Eval(ops, db, env, r.args[i]) == False {
          NonNullTerm(cat, chain, env, r.args[i].term);
        }
        assert r.args[|r.args| - 1] == c;
      }
    case And(cs) =>
      forall i | 0 <= i < |cs| ensures Eval(ops, db, env, r.args[i]) == Eval(ops, db, env, cs[i]) {
        WeakenedConservative(ops, cat, db, chain, env, positive, cs[i], r.args[i]);
      }
    case Or(cs) =>
      forall i | 0 <= i < |cs| ensures Eval(ops, db, env, r.args[i]) == Eval(ops, db, env, cs[i]) {
        WeakenedConservative(ops, cat, db, chain, env, positive, cs[i], r.args[i]);
      }
    case Not(a) => WeakenedConservative(ops, cat, db, chain, env, !positive, a, r.arg);
    case Exists(rels, q) =>
      forall pick | Picks(db, rels, pick)
        ensures Eval(ops, db, [Picked(db, rels, pick)] + env, r.quals) ==
          Eval(ops, db, [Picked(db, rels, pick)] + env, q)
      {
        ExtendEnv(cat, db, db, chain, env, env, rels, pick);
        WeakenedConservative(ops, cat, db, [ScopeOf(cat, rels)] + chain, [Picked(db, rels, pick)] + env, positive, q,
                             r.quals);
      }
    case _ =>
  }

  lemma NonNullTerm(cat: Catalog, chain: Chain, env: Env, t: Term)
    requires CompletesEnv(env, env) && EnvObeys(cat.notNull, chain, env)
    requires InScope(chain, t) && t != Literal(Null)
    ensures TermValue(env, t).Val?
  {
    if t.Column? {
      assert RowObeys(cat.notNull, chain[t.level][t.varno - 1], env[t.level][t.varno - 1]);
      assert CompletesRows(env[t.level], env[t.level]);
      assert CompletesRow(env[t.level][t.varno - 1], env[t.level][t.varno - 1]);
    }
  }
}
