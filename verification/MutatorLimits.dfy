/**
 Where the mutator stops being safe: the exact condition on one comparison, on one negated
 comparison and on one IS NULL test, and concrete inputs beyond them.
 */
module MutatorLimits {
  import opened Sql
  import opened Completions
  import opened Mutator

  /** r is true on every row that some completion makes c true on. */
  ghost predicate NegativeSound(cat: Catalog, chain: Chain, c: Cond, r: Cond) {
    forall ops: Operators, db: Database, env: Env, env': Env ::
      CompletesEnv(env, env') && EnvObeys(cat.notNull, chain, env) && Eval(ops, db, env', c) == True ==>
        Eval(ops, db, env, r) == True
  }

  /** A row of r makes c true under every completion. */
  ghost predicate PositiveSound(cat: Catalog, chain: Chain, c: Cond, r: Cond) {
    forall ops: Operators, db: Database, env: Env, env': Env ::
      CompletesEnv(env, env') && EnvObeys(cat.notNull, chain, env) && Eval(ops, db, env, r) == True ==>
        Eval(ops, db, env', c) == True
  }

  // ----- rows in which everything that may be null is null -----

  function BlankRow(known: set<Attr>, attrs: seq<Attr>): Row {
    seq(|attrs|, a requires 0 <= a < |attrs| => if attrs[a] in known then Val(0) else Null)
  }

  function BlankScope(known: set<Attr>, scope: seq<seq<Attr>>): Scope {
    seq(|scope|, n requires 0 <= n < |scope| => BlankRow(known, scope[n]))
  }

  function BlankEnv(known: set<Attr>, chain: Chain): Env {
    seq(|chain|, l requires 0 <= l < |chain| => BlankScope(known, chain[l]))
  }

  function ZeroEnv(chain: Chain): Env {
    seq(|chain|, l requires 0 <= l < |chain| => seq(|chain[l]|, n requires 0 <= n < |chain[l]| =>
      seq(|chain[l][n]|, a requires 0 <= a < |chain[l][n]| => Val(0))))
  }

  lemma BlankEnvFits(cat: Catalog, chain: Chain)
    ensures EnvObeys(cat.notNull, chain, BlankEnv(cat.notNull, chain))
    ensures CompletesEnv(BlankEnv(cat.notNull, chain), ZeroEnv(chain))
  {
    var env, env' := BlankEnv(cat.notNull, chain), ZeroEnv(chain);
    forall l | 0 <= l < |chain| ensures CompletesRows(env[l], env'[l]) {
      forall n | 0 <= n < |chain[l]| ensures CompletesRow(env[l][n], env'[l][n]) {}
    }
  }

  lemma BlankValue(cat: Catalog, chain: Chain, t: Term)
    requires InScope(chain, t) && t != Literal(Null)
    ensures TermValue(BlankEnv(cat.notNull, chain), t).Null? <==> t.Column? && !KnownNotNull(chain, cat.notNull, t)
    ensures TermValue(ZeroEnv(chain), t).Val?
  {
  }

  predicate Usable(chain: Chain, ts: seq<Term>) {
    forall i :: 0 <= i < |ts| ==> InScope(chain, ts[i]) && ts[i] != Literal(Null)
  }

  predicate AllKnown(cat: Catalog, chain: Chain, ts: seq<Term>) {
    forall i :: 0 <= i < |ts| && ts[i].Column? ==> KnownNotNull(chain, cat.notNull, ts[i])
  }

  lemma BlankAtom(ops: Operators, cat: Catalog, chain: Chain, op: nat, ts: seq<Term>)
    requires Usable(chain, ts)
    ensures NullFree(TermValues(ZeroEnv(chain), ts))
    ensures NullFree(TermValues(BlankEnv(cat.notNull, chain), ts)) <==> AllKnown(cat, chain, ts)
  {
    forall i | 0 <= i < |ts|
      ensures TermValues(ZeroEnv(chain), ts)[i].Val?
      ensures TermValues(BlankEnv(cat.notNull, chain), ts)[i].Null? <==>
        ts[i].Column? && !KnownNotNull(chain, cat.notNull, ts[i])
    {
      BlankValue(cat, chain, ts[i]);
    }
  }

  /** Every column that may be null is tested: the operator is listed and the context skips none of them. */
  predicate AllTested(cat: Catalog, st: Context, op: nat, ts: seq<Term>) {
    forall i :: 0 <= i < |ts| && ts[i].Column? && !KnownNotNull(st.trueVar, cat.notNull, ts[i]) ==>
      op in LISTED && !Skipped(st, ts[i])
  }

  /** The catalog in which only skipped columns may be null. */
  function OnlySkipped(cat: Catalog, st: Context, ts: seq<Term>): Catalog
    requires Usable(st.trueVar, ts)
  {
    cat.(notNull := cat.notNull + set t | t in ts && t.Column? && !Skipped(st, t) :: AttrOf(st.trueVar, t))
  }

  lemma SkippedIsUnsound(cat: Catalog, s: Script, st: Context, op: nat, ts: seq<Term>, k: nat)
    requires !st.positive && !st.ready && st.toAdd == [] && Usable(st.trueVar, ts)
    requires k < |ts| && ts[k].Column? && !KnownNotNull(st.trueVar, cat.notNull, ts[k])
    requires (op !in LISTED || Skipped(st, ts[k]))
    ensures !NegativeSound(cat, st.trueVar, Compare(op, ts), Mutate(s, st, Compare(op, ts)).0)
  {
    var c, chain := Compare(op, ts), st.trueVar;
    var narrow := if op in LISTED then OnlySkipped(cat, st, ts) else cat;
    var env, ops: Operators := BlankEnv(narrow.notNull, chain), (_, _) => true;
    BlankEnvFits(narrow, chain);
    BlankAtom(ops, narrow, chain, op, ts);
    BlankValue(narrow, chain, ts[k]);
    assert EnvObeys(cat.notNull, chain, env);
    assert Eval(ops, map[], ZeroEnv(chain), c) == True && Eval(ops, map[], env, c) == Unknown;
    SkippedStaysUnknown(cat, s, st, op, ts, env);
  }

  lemma SkippedStaysUnknown(cat: Catalog, s: Script, st: Context, op: nat, ts: seq<Term>, env: Env)
    requires !st.positive && !st.ready && st.toAdd == [] && Usable(st.trueVar, ts)
    requires op in LISTED ==> forall t :: t in ts && t.Column? && !Skipped(st, t) ==> TermValue(env, t).Val?
    requires Eval((_, _) => true, map[], env, Compare(op, ts)) == Unknown
    ensures Eval((_, _) => true, map[], env, Mutate(s, st, Compare(op, ts)).0) != True
  {
    var r := Mutate(s, st, Compare(op, ts)).0;
    if op in LISTED {
      NullTestsOnly(st.(ready := true), ts);
      assert r != Compare(op, ts) ==> forall i ::
        0 <= i < |r.args| - 1 ==> r.args[i] in NullTests(st.(ready := true), ts);
    }
  }

  lemma TestedIsWeak(cat: Catalog, s: Script, st: Context, op: nat, ts: seq<Term>)
    requires !st.positive && !st.ready && st.toAdd == [] && AllTested(cat, st, op, ts)
    ensures WeakAtom(cat, st.trueVar, ts, Compare(op, ts), Mutate(s, st, Compare(op, ts)).0)
  {
    NullTestsAll(st.(ready := op in LISTED), ts);
  }

  lemma WeakIsSound(cat: Catalog, chain: Chain, op: nat, ts: seq<Term>, r: Cond)
    requires WeakAtom(cat, chain, ts, Compare(op, ts), r) && Usable(chain, ts)
    ensures NegativeSound(cat, chain, Compare(op, ts), r)
  {
    forall ops: Operators, db: Database, env: Env, env': Env
      | CompletesEnv(env, env') && EnvObeys(cat.notNull, chain, env) && Eval(ops, db, env', Compare(op, ts)) == True
      ensures Eval(ops, db, env, r) == True
    {
      WeakAtomSound(ops, cat, db, db, chain, env, env', op, ts, r);
    }
  }

  /**
   From a clean context, what the mutator makes of a comparison at negative polarity is sound exactly
   when every one of its columns that may be null is tested, whatever lists the context skips.
   */
  lemma ComparisonSoundExactly(cat: Catalog, s: Script, st: Context, op: nat, ts: seq<Term>)
    requires !st.positive && !st.ready && st.toAdd == [] && Usable(st.trueVar, ts)
    ensures NegativeSound(cat, st.trueVar, Compare(op, ts), Mutate(s, st, Compare(op, ts)).0) <==>
      AllTested(cat, st, op, ts)
  {
    if AllTested(cat, st, op, ts) {
      TestedIsWeak(cat, s, st, op, ts);
      WeakIsSound(cat, st.trueVar, op, ts, Mutate(s, st, Compare(op, ts)).0);
    } else {
      var k :| 0 <= k < |ts| && ts[k].Column? && !KnownNotNull(st.trueVar, cat.notNull, ts[k]) &&
        (op !in LISTED || Skipped(st, ts[k]));
      SkippedIsUnsound(cat, s, st, op, ts, k);
    }
  }

  /**
   A negated comparison at negative polarity is left alone, which is sound exactly when none of its
   columns may be null.
   */
  lemma NegatedComparisonSoundExactly(cat: Catalog, s: Script, st: Context, op: nat, ts: seq<Term>)
    requires !st.positive && !st.ready && st.toAdd == []
    requires Usable(st.trueVar, ts)
    ensures NegativeSound(cat, st.trueVar, Not(Compare(op, ts)), Mutate(s, st, Not(Compare(op, ts))).0)
            <==> AllKnown(cat, st.trueVar, ts)
  {
    var c, chain := Not(Compare(op, ts)), st.trueVar;
    var r := Mutate(s, st, c).0;
    assert Mutate(s, st.(positive := true), Compare(op, ts)).0 == Compare(op, ts);
    assert r == c;
    if AllKnown(cat, chain, ts) {
      forall ops: Operators, db: Database, env: Env, env': Env
        | CompletesEnv(env, env') && EnvObeys(cat.notNull, chain, env) && Eval(ops, db, env', c) == True
        ensures Eval(ops, db, env, r) == True
      {
        forall i | 0 <= i < |ts| ensures TermValues(env, ts)[i].Val? { KnownTerm(cat, chain, env, ts[i]); }
        CompletedAtom(ops, env, env', op, ts);
        assert Eval(ops, db, env, Compare(op, ts)) == Eval(ops, db, env', Compare(op, ts));
      }
    } else {
      var ops: Operators := (_, _) => false;
      BlankEnvFits(cat, chain);
      BlankAtom(ops, cat, chain, op, ts);
      assert Eval(ops, map[], ZeroEnv(chain), Compare(op, ts)) == False;
      assert Eval(ops, map[], BlankEnv(cat.notNull, chain), Compare(op, ts)) == Unknown;
      assert Eval(ops, map[], ZeroEnv(chain), c) == True;
      assert Eval(ops, map[], BlankEnv(cat.notNull, chain), r) == Unknown;
    }
  }

  /** An IS NULL test of the input is certain at positive polarity exactly when its column cannot be null. */
  lemma NullTestSoundExactly(cat: Catalog, s: Script, st: Context, t: Term)
    requires st.positive && InScope(st.trueVar, t) && t.Column?
    ensures PositiveSound(cat, st.trueVar, IsNull(t), Mutate(s, st, IsNull(t)).0) <==>
      KnownNotNull(st.trueVar, cat.notNull, t)
  {
    var c, chain := IsNull(t), st.trueVar;
    if KnownNotNull(chain, cat.notNull, t) {
      forall ops: Operators, db: Database, env: Env, env': Env
        | CompletesEnv(env, env') && EnvObeys(cat.notNull, chain, env)
        ensures Eval(ops, db, env, c) == False
      {
        KnownTerm(cat, chain, env, t);
      }
    } else {
      var ops: Operators := (_, _) => true;
      BlankEnvFits(cat, chain);
      BlankValue(cat, chain, t);
      assert Eval(ops, map[], BlankEnv(cat.notNull, chain), c) == True;
      assert Eval(ops, map[], ZeroEnv(chain), c) == False;
    }
  }

  // ----- int4 equality, end to end -----

  // SELECT * FROM r WHERE NOT EXISTS (SELECT * FROM s WHERE s.a = r.a), on r = {(1)} and s = {(NULL)}.
  const CAT := Catalog(map[1 := 1, 2 := 1], {})
  const ATOM := Compare(INT4_EQ, [Column(0, 1, 1), Column(1, 1, 1)])
  const QUALS := Not(Exists([2], ATOM))
  const OUTER: Chain := [ScopeOf(CAT, [1])]
  const INNER: Chain := [ScopeOf(CAT, [2])] + OUTER
  const SCRIPT := Script([], [], [OUTER, INNER])
  const DB: Database := map[1 := [[Val(1)]], 2 := [[Null]]]
  const FILLED: Database := map[1 := [[Val(1)]], 2 := [[Val(1)]]]
  const EQUALS: Operators := (op, vs) => |vs| == 2 && vs[0] == vs[1]

  lemma ExampleFits()
    ensures SCRIPT.trueVars == [OUTER] + Chains(CAT, OUTER, QUALS)
    ensures CompletesDb(DB, FILLED) && DbObeys(CAT, DB)
    ensures Mutate(SCRIPT, Start(SCRIPT, []), QUALS).0 == QUALS
  {
    assert Chains(CAT, INNER, ATOM) == [];
    assert Chains(CAT, OUTER, Exists([2], ATOM)) == [INNER];
    forall rel: nat ensures CompletesRows(Rows(DB, rel), Rows(FILLED, rel)) {}
    forall rel: nat, i | 0 <= i < |Rows(DB, rel)| ensures RowObeys(CAT.notNull, Columns(CAT, rel), Rows(DB, rel)[i]) {}
    var st := Start(SCRIPT, []).(positive := false);
    assert MutateCompare(EnterQuery(SCRIPT, st), ATOM).0 == ATOM;
    assert Mutate(SCRIPT, st, Exists([2], ATOM)).0 == Exists([2], ATOM);
  }

  lemma ExampleBefore()
    ensures Returns(EQUALS, DB, [1], QUALS, [0])
  {
    var env: Env := [Picked(DB, [1], [0])];
    forall pick | Picks(DB, [2], pick) ensures Eval(EQUALS, DB, [Picked(DB, [2], pick)] + env, ATOM) != True {
      assert TermValues([Picked(DB, [2], pick)] + env, ATOM.terms)[0] == Null;
    }
    assert Eval(EQUALS, DB, env, Exists([2], ATOM)) == False;
  }

  lemma ExampleAfter()
    ensures !Returns(EQUALS, FILLED, [1], QUALS, [0])
  {
    var env: Env := [Picked(FILLED, [1], [0])];
    var full: Env := [Picked(FILLED, [2], [0])] + env;
    assert TermValues(full, ATOM.terms) == [Val(1), Val(1)];
    assert Ints([Val(1), Val(1)]) == [1, 1];
    assert Eval(EQUALS, FILLED, full, ATOM) == True;
    assert Picks(FILLED, [2], [0]);
    assert Eval(EQUALS, FILLED, env, Exists([2], ATOM)) == True;
  }

  /** The rewritten query returns a row that one completion of the null takes away. */
  lemma Int4EqualityIsNotCertain()
    ensures SCRIPT.trueVars == [[ScopeOf(CAT, [1])]] + Chains(CAT, [ScopeOf(CAT, [1])], QUALS)
    ensures Supported(CAT, true, OUTER, QUALS) && !Covered(CAT, true, OUTER, QUALS)
    ensures CompletesDb(DB, FILLED) && DbObeys(CAT, DB)
    ensures Returns(EQUALS, DB, [1], Mutate(SCRIPT, Start(SCRIPT, []), QUALS).0, [0])
    ensures !Returns(EQUALS, FILLED, [1], QUALS, [0])
  {
    ExampleFits();
    ExampleBefore();
    ExampleAfter();
    assert !KnownNotNull(INNER, CAT.notNull, ATOM.terms[0]);
    assert !Covered(CAT, false, INNER, ATOM);
    assert !Covered(CAT, false, OUTER, Exists([2], ATOM));
    assert Supported(CAT, false, OUTER, Exists([2], ATOM));
  }

  // ----- tests that wait too long -----

  predicate Clean(st: Context) {
    !st.ready && st.toAdd == []
  }

  /**
   From a clean context a comparison leaves the "ready" flag set exactly when it is listed, negative and
   fully skipped.
   */
  lemma ComparisonCleanExactly(st: Context, c: Cond)
    requires c.Compare? && Clean(st)
    ensures Clean(MutateCompare(st, c).1) <==>
      (st.positive || c.op !in LISTED || exists i ::
        0 <= i < |c.terms| && c.terms[i].Column? && !Skipped(st, c.terms[i]))
  {
    var st1 := st.(ready := true);
    NullTestsAll(st1, c.terms);
    NullTestsOnly(st1, c.terms);
    if i :| 0 <= i < |c.terms| && c.terms[i].Column? && !Skipped(st, c.terms[i]) {
      assert IsNull(c.terms[i]) in NullTests(st1, c.terms);
    }
  }

  lemma {:induction false} NullTestsOnly(st: Context, ts: seq<Term>)
    ensures forall r :: r in NullTests(st, ts) ==> r.IsNull? && r.term in ts && r.term.Column? && !Skipped(st, r.term)
    ensures (forall i :: 0 <= i < |ts| && ts[i].Column? ==> Skipped(st, ts[i])) ==> NullTests(st, ts) == []
  {
    if ts != [] { NullTestsOnly(st, ts[1..]); }
  }

  /** Every listed comparison at negative polarity has a column that may be null. */
  predicate Clears(cat: Catalog, positive: bool, chain: Chain, c: Cond)
    decreases c
  {
    match c
    case Compare(op, ts) =>
      positive || op !in LISTED || exists i ::
        0 <= i < |ts| && ts[i].Column? && !KnownNotNull(chain, cat.notNull, ts[i])
    case And(cs) => forall i :: 0 <= i < |cs| ==> Clears(cat, positive, chain, cs[i])
    case Or(cs) => forall i :: 0 <= i < |cs| ==> Clears(cat, positive, chain, cs[i])
    case Not(a) => Clears(cat, !positive, chain, a)
    case Exists(rels, q) => Clears(cat, positive, [ScopeOf(cat, rels)] + chain, q)
    case _ => true
  }

  lemma CompareStaysClean(cat: Catalog, s: Script, st: Context, c: Cond)
    requires c.Compare? && Clean(st) && Sane(cat, s, st)
    requires Clears(cat, st.positive, st.trueVar, c) && WellScoped(cat, st.trueVar, c) && NoNullLiteral(c)
    ensures var (r, st') := MutateCompare(st, c); Clean(st') && WellScoped(cat, st.trueVar, r) && NoNullLiteral(r)
  {
    ComparisonCleanExactly(st, c);
    var st1 := st.(ready := true);
    NullTestsOnly(st1, c.terms);
    var r := MutateCompare(st, c).0;
    if r != c {
      forall i | 0 <= i < |r.args| ensures WellScoped(cat, st.trueVar, r.args[i]) && NoNullLiteral(r.args[i]) {
        if i < |r.args| - 1 {
          assert r.args[i] in NullTests(st1, c.terms);
          var k :| 0 <= k < |c.terms| && c.terms[k] == r.args[i].term;
        }
      }
    }
  }

  /** Then no test outlives its comparison, and the result refers to columns in scope only. */
  lemma {:induction false} MutateStaysClean(cat: Catalog, s: Script, st: Context, c: Cond)
    requires Clean(st) && Sane(cat, s, st) && Paired(cat, s, st, c)
    requires Supported(cat, st.positive, st.trueVar, c) && Covered(cat, st.positive, st.trueVar, c)
    requires Clears(cat, st.positive, st.trueVar, c) && WellScoped(cat, st.trueVar, c) && NoNullLiteral(c)
    ensures var (r, st') := Mutate(s, st, c); Clean(st') && WellScoped(cat, st.trueVar, r) && NoNullLiteral(r)
    decreases c
  {
    match c
    case Absent =>
    case Compare(_, _) => CompareStaysClean(cat, s, st, c);
    case And(cs) => MutateArgsStayClean(cat, s, EnterJunction(s, st), cs);
    case Or(cs) => MutateArgsStayClean(cat, s, EnterJunction(s, st), cs);
    case Not(a) => MutateStaysClean(cat, s, st.(positive := !st.positive), a);
    case Exists(rels, q) =>
      var inner := [ScopeOf(cat, rels)] + st.trueVar;
      PrefixSplit([inner], Chains(cat, inner, q), s.trueVars, st.atQuery);
      assert s.trueVars[st.atQuery..][0] == inner;
      assert EnterQuery(s, st).trueVar == inner;
      MutateStaysClean(cat, s, EnterQuery(s, st), q);
  }

  lemma {:induction false} MutateArgsStayClean(cat: Catalog, s: Script, st: Context, cs: seq<Cond>)
    requires Clean(st) && Sane(cat, s, st) && PairedArgs(cat, s, st, cs)
    requires forall i ::
      0 <= i < |cs| ==> Covered(cat, st.positive, st.trueVar, cs[i]) && Supported(cat, st.positive, st.trueVar, cs[i])
    requires forall i ::
      0 <= i < |cs| ==>
        Clears(cat, st.positive, st.trueVar, cs[i]) && WellScoped(cat, st.trueVar, cs[i]) && NoNullLiteral(cs[i])
    ensures var (rs, st') := MutateArgs(s, st, cs);
      Clean(st') && forall i :: 0 <= i < |cs| ==> WellScoped(cat, st.trueVar, rs[i]) && NoNullLiteral(rs[i])
    decreases cs
  {
    if cs != [] {
      PrefixSplit(Chains(cat, st.trueVar, cs[0]), ChainsOf(cat, st.trueVar, cs[1..]), s.trueVars, st.atQuery);
      MutateStaysClean(cat, s, st, cs[0]);
      MutateWeakens(cat, s, st, cs[0]);
      var (r, st1) := Mutate(s, st, cs[0]);
      MutateArgsStayClean(cat, s, st1, cs[1..]);
    }
  }

  /** On a database without nulls the rewritten query then returns exactly what the original returns. */
  lemma RewrittenQueryIsConservative(ops: Operators, cat: Catalog, s: Script, known: seq<Attr>,
                                     db: Database, rels: seq<nat>, quals: Cond, pick: seq<nat>)
    requires s.trueVars == [[ScopeOf(cat, rels)]] + Chains(cat, [ScopeOf(cat, rels)], quals)
    requires Sane(cat, s, Start(s, known))
    requires Supported(cat, true, [ScopeOf(cat, rels)], quals) && Covered(cat, true, [ScopeOf(cat, rels)], quals)
    requires Clears(cat, true, [ScopeOf(cat, rels)], quals)
    requires WellScoped(cat, [ScopeOf(cat, rels)], quals) && NoNullLiteral(quals)
    requires CompletesDb(db, db) && DbObeys(cat, db)
    ensures Returns(ops, db, rels, Mutate(s, Start(s, known), quals).0, pick) <==> Returns(ops, db, rels, quals, pick)
  {
    var chain := [ScopeOf(cat, rels)];
    var st := Start(s, known);
    assert s.trueVars[1..] == Chains(cat, chain, quals);
    MutateWeakens(cat, s, st, quals);
    MutateStaysClean(cat, s, st, quals);
    if Picks(db, rels, pick) {
      ExtendEnv(cat, db, db, [], [], [], rels, pick);
      assert [ScopeOf(cat, rels)] + [] == chain;
      assert [Picked(db, rels, pick)] + [] == [Picked(db, rels, pick)];
      WeakenedConservative(ops, cat, db, chain, [Picked(db, rels, pick)], true, quals, Mutate(s, st, quals).0);
    }
  }

  // One relation with a NOT NULL and a nullable column, one with three columns; at negative polarity
  //   s.a <> 1 AND NOT EXISTS (SELECT * FROM t WHERE t.c <> 1) AND s.b <> 5
  const WIDE := Catalog(map[1 := 2, 2 := 3], {Attr(1, 1)})
  const FIRST := Compare(518, [Column(0, 1, 1), Literal(Val(1))])
  const NESTED := Compare(518, [Column(0, 1, 3), Literal(Val(1))])
  const LAST := Compare(518, [Column(0, 1, 2), Literal(Val(5))])
  const LEAKY := And([FIRST, Not(Exists([2], NESTED)), LAST])
  const WIDE_OUTER: Chain := [ScopeOf(WIDE, [1])]
  const WIDE_INNER: Chain := [ScopeOf(WIDE, [2])] + WIDE_OUTER
  const WIDE_SCRIPT := Script([[]], [[]], [WIDE_INNER])
  const LEAKING := Context(false, true, [], [Attr(1, 1)], 1, WIDE_OUTER, 0)

  lemma LeakFirst()
    ensures MutateCompare(LEAKING.(ready := false), FIRST) == (FIRST, LEAKING)
  {
    var st := LEAKING;
    assert Skipped(st, FIRST.terms[0]);
    assert NullTests(st, FIRST.terms[1..]) == [] by { assert NullTests(st, FIRST.terms[1..][1..]) == []; }
    assert NullTests(st, FIRST.terms) == [];
  }

  lemma LeakNested()
    ensures Mutate(WIDE_SCRIPT, LEAKING, Not(Exists([2], NESTED))) ==
            (Not(Exists([2], NESTED)),
             LEAKING.(toAdd := [IsNull(Column(0, 1, 3)), IsNull(Column(0, 1, 3))], atQuery := 1))
  {
    var st := EnterQuery(WIDE_SCRIPT, LEAKING.(positive := true));
    assert !Skipped(st, NESTED.terms[0]);
    assert NullTests(st, NESTED.terms[1..]) == [] by { assert NullTests(st, NESTED.terms[1..][1..]) == []; }
    assert NullTests(st, NESTED.terms) == [IsNull(Column(0, 1, 3))];
    assert st.toAdd + [IsNull(Column(0, 1, 3))] == [IsNull(Column(0, 1, 3))];
    assert [IsNull(Column(0, 1, 3))] + [IsNull(Column(0, 1, 3))] == [IsNull(Column(0, 1, 3)), IsNull(Column(0, 1, 3))];
    assert MutateCompare(st, NESTED) == (NESTED, st.(toAdd := [IsNull(Column(0, 1, 3)), IsNull(Column(0, 1, 3))]));
    assert Mutate(WIDE_SCRIPT, LEAKING.(positive := true), Exists([2], NESTED)).0 == Exists([2], NESTED);
  }

  lemma LeakyFits()
    ensures WellScoped(WIDE, WIDE_OUTER, LEAKY) && Supported(WIDE, false, WIDE_OUTER, LEAKY)
    ensures Covered(WIDE, false, WIDE_OUTER, LEAKY)
    ensures Chains(WIDE, WIDE_OUTER, LEAKY) == [WIDE_INNER]
  {
    var cs := LEAKY.args;
    var sub := Exists([2], NESTED);
    assert Supported(WIDE, false, WIDE_OUTER, cs[1]) by { assert Supported(WIDE, true, WIDE_OUTER, sub); }
    assert Covered(WIDE, false, WIDE_OUTER, cs[1]) by { assert Covered(WIDE, true, WIDE_OUTER, sub); }
    assert WellScoped(WIDE, WIDE_OUTER, cs[1]) by { assert WellScoped(WIDE, WIDE_OUTER, sub); }
    assert Chains(WIDE, WIDE_OUTER, cs[1]) == [WIDE_INNER] by {
      assert Chains(WIDE, WIDE_INNER, NESTED) == [];
      assert Chains(WIDE, WIDE_OUTER, sub) == [WIDE_INNER];
    }
    assert ChainsOf(WIDE, WIDE_OUTER, cs[1..][1..]) ==
      Chains(WIDE, WIDE_OUTER, LAST) + ChainsOf(WIDE, WIDE_OUTER, []) == [];
    assert ChainsOf(WIDE, WIDE_OUTER, cs[1..]) == [WIDE_INNER];
    assert Chains(WIDE, WIDE_OUTER, cs[0]) == [];
    assert ChainsOf(WIDE, WIDE_OUTER, cs) == [] + [WIDE_INNER];
  }

  lemma LeakLast()
    ensures !WellScoped(WIDE, WIDE_OUTER, MutateArgs(WIDE_SCRIPT, LEAKING.(ready := false), LEAKY.args).0[2])
  {
    LeakFirst();
    LeakNested();
    var cs := LEAKY.args;
    var st2 := LEAKING.(toAdd := [IsNull(Column(0, 1, 3)), IsNull(Column(0, 1, 3))], atQuery := 1);
    var last := MutateCompare(st2, LAST).0;
    assert last.Or? && last.args[0] == IsNull(Column(0, 1, 3));
    assert !WellScoped(WIDE, WIDE_OUTER, last.args[0]);
    assert cs[1..][0] == cs[1] && cs[1..][1..] == [LAST];
    assert MutateArgs(WIDE_SCRIPT, st2, [LAST]).0[0] == last;
    assert MutateArgs(WIDE_SCRIPT, LEAKING, cs[1..]).0[1] == last;
    assert MutateArgs(WIDE_SCRIPT, LEAKING.(ready := false), cs).0[2] == last;
  }

  /** The test on t.c ends up in front of s.b <> 5, outside the subquery, where column 3 does not exist. */
  lemma LeakedTestLeavesScope()
    ensures WellScoped(WIDE, WIDE_OUTER, LEAKY) && Supported(WIDE, false, WIDE_OUTER, LEAKY)
    ensures Covered(WIDE, false, WIDE_OUTER, LEAKY)
    ensures Paired(WIDE, WIDE_SCRIPT, LEAKING.(ready := false, at := 0), LEAKY)
    ensures !WellScoped(WIDE, WIDE_OUTER, Mutate(WIDE_SCRIPT, LEAKING.(ready := false, at := 0), LEAKY).0)
  {
    LeakyFits();
    LeakLast();
    assert EnterJunction(WIDE_SCRIPT, LEAKING.(ready := false, at := 0)) == LEAKING.(ready := false);
  }
}
