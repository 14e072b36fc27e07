/** Where the lists of the first pass stop being safe: the exact condition at an EXISTS, and a query beyond it. */
module HookLimits {
  import opened Sql
  import opened Completions
  import opened Mutator
  import opened TrueVar
  import opened Walker
  import opened SharedLists
  import opened SkipLists
  import opened Hook
  import MutatorLimits

  /** Where the subquery returns nothing, the columns on the to-be-false list have values. */
  ghost predicate SoundThrough(cat: Catalog, chain: Chain, rels: seq<nat>, q: Cond)
    requires WellScoped(cat, chain, Exists(rels, q))
  {
    forall ops: Operators, db: Database, env: Env, a: Attr ::
      (&& EnvObeys(cat.notNull, chain, env) && DbObeys(cat, db) && Eval(ops, db, env, Exists(rels, q)) == False
       && a in Needed(cat, chain, false, Exists(rels, q))) ==> Valued(chain, env, a)
  }

  /** With no row in any relation, an EXISTS is false. */
  lemma EmptyExists(ops: Operators, env: Env, rels: seq<nat>, q: Cond)
    requires |rels| > 0
    ensures Eval(ops, map[], env, Exists(rels, q)) == False
  {
    forall pick ensures !Picks(map[], rels, pick) {
      assert Picks(map[], rels, pick) ==> pick[0] < |Rows(map[], rels[0])|;
    }
  }

  lemma BlankColumn(cat: Catalog, chain: Chain, a: Attr)
    requires a !in cat.notNull && InChain(chain, a)
    ensures !Valued(chain, MutatorLimits.BlankEnv(cat.notNull, chain), a)
  {
    var env := MutatorLimits.BlankEnv(cat.notNull, chain);
    var l, n, i :| 0 <= l < |chain| && 0 <= n < |chain[l]| && 0 <= i < |chain[l][n]| && chain[l][n][i] == a;
    var t := Column(l, n + 1, i + 1);
    assert InScope(chain, t) && AttrOf(chain, t) == a && TermValue(env, t) == Null;
  }

  /** The list passes an EXISTS soundly exactly if it holds no outer column that may be null. */
  lemma ThroughExistsExactly(cat: Catalog, chain: Chain, rels: seq<nat>, q: Cond)
    requires WellScoped(cat, chain, Exists(rels, q)) && |rels| > 0
    ensures SoundThrough(cat, chain, rels, q) <==> Grounded(cat, chain, false, Exists(rels, q))
  {
    var c := Exists(rels, q);
    if Grounded(cat, chain, false, c) {
      forall env: Env, a: Attr | EnvObeys(cat.notNull, chain, env) && a in Needed(cat, chain, false, c)
        ensures Valued(chain, env, a)
      {
        ObeysValued(cat.notNull, chain, env, a);
      }
    } else {
      var a :| a in Needed(cat, chain, false, c) && a !in cat.notNull && InChain(chain, a);
      var env, ops: Operators := MutatorLimits.BlankEnv(cat.notNull, chain), (_, _) => true;
      MutatorLimits.BlankEnvFits(cat, chain);
      BlankColumn(cat, chain, a);
      EmptyExists(ops, env, rels, q);
    }
  }

  // ----- a list that passed NOT EXISTS -----

  // r WHERE NOT EXISTS (s WHERE NOT EXISTS (u WHERE u.c = r.a)) AND NOT EXISTS (t WHERE t.b <> r.a)
  // on r = {(NULL)}, t = {(5)}, with s and u empty.
  const CAT := Catalog(map[1 := 1, 2 := 1, 3 := 1, 4 := 1], {})
  const EQ := Compare(98, [Column(0, 1, 1), Column(2, 1, 1)])
  const NE := Compare(518, [Column(0, 1, 1), Column(1, 1, 1)])
  const LEFT := Not(Exists([2], Not(Exists([4], EQ))))
  const QUALS := And([LEFT, Not(Exists([3], NE))])
  const TOP: Chain := [ScopeOf(CAT, [1])]
  const IN_S: Chain := [ScopeOf(CAT, [2])] + TOP
  const IN_U: Chain := [ScopeOf(CAT, [4])] + IN_S
  const IN_T: Chain := [ScopeOf(CAT, [3])] + TOP
  const TESTED := Or([IsNull(Column(0, 1, 1)), NE])
  const REWRITTEN := And([LEFT, Not(Exists([3], TESTED))])
  const DB: Database := map[1 := [[Null]], 3 := [[Val(5)]]]
  const FILLED: Database := map[1 := [[Val(1)]], 3 := [[Val(5)]]]
  const OPS: Operators := (op, vs) => |vs| == 2 && (op == 518 <==> vs[0] != vs[1])

  lemma Scoped()
    ensures WellScoped(CAT, IN_U, EQ) && WellScoped(CAT, IN_T, NE)
    ensures WellScoped(CAT, TOP, LEFT.arg) && WellScoped(CAT, TOP, QUALS.args[1].arg) && WellScoped(CAT, TOP, QUALS)
  {
    assert WellScoped(CAT, IN_U, EQ);
    assert WellScoped(CAT, IN_S, Exists([4], EQ));
    assert WellScoped(CAT, TOP, LEFT.arg);
    assert WellScoped(CAT, IN_T, NE);
    assert WellScoped(CAT, TOP, QUALS.args[1].arg);
  }

  lemma LeftList()
    ensures WellScoped(CAT, TOP, LEFT)
    ensures forall a :: a in Needed(CAT, TOP, true, LEFT) <==> a == Attr(4, 1) || a == Attr(1, 1)
  {
    Scoped();
    assert EQ.terms[..1][..0] == [];
    assert ColumnsOf(IN_U, EQ.terms[..1]) == [Attr(4, 1)];
    assert ColumnsOf(IN_U, EQ.terms) == [Attr(4, 1), Attr(1, 1)];
    DedupMeans(ColumnsOf(IN_U, EQ.terms));
    assert Needed(CAT, IN_S, true, Exists([4], EQ)) == Needed(CAT, IN_U, true, EQ);
    assert Needed(CAT, TOP, false, LEFT.arg) == Needed(CAT, IN_S, false, LEFT.arg.quals);
  }

  lemma RightList()
    ensures WellScoped(CAT, TOP, QUALS.args[1]) && Needed(CAT, TOP, true, QUALS.args[1]) == []
  {
    Scoped();
    assert Needed(CAT, TOP, false, QUALS.args[1].arg) == Needed(CAT, IN_T, false, NE);
  }

  lemma ListedColumn()
    ensures WellScoped(CAT, TOP, QUALS)
    ensures Attr(1, 1) in Needed(CAT, TOP, true, QUALS) && Attr(3, 1) !in Needed(CAT, TOP, true, QUALS)
  {
    LeftList();
    RightList();
    var ls := NeededArgs(CAT, TOP, true, QUALS.args);
    assert Flatten(ls[1..][1..]) == [];
    assert Flatten(ls[1..]) == [];
    DedupMeans(Flatten(ls));
  }

  lemma Scopes()
    ensures Chains(CAT, TOP, QUALS) == [IN_S, IN_U, IN_T]
  {
    assert Chains(CAT, IN_U, EQ) == [] && Chains(CAT, IN_S, Exists([4], EQ)) == [IN_U];
    assert Chains(CAT, TOP, LEFT.arg) == [IN_S, IN_U];
    assert Chains(CAT, IN_T, NE) == [] && Chains(CAT, TOP, QUALS.args[1].arg) == [IN_T];
    assert ChainsOf(CAT, TOP, QUALS.args[1..]) ==
      Chains(CAT, TOP, QUALS.args[1]) + ChainsOf(CAT, TOP, QUALS.args[1..][1..]) == [IN_T];
    assert Chains(CAT, TOP, LEFT) == [IN_S, IN_U];
    assert ChainsOf(CAT, TOP, QUALS.args) == [IN_S, IN_U] + [IN_T];
  }

  lemma Nodes()
    ensures Junctions(QUALS) == 1
  {
    assert Junctions(LEFT) == Junctions(LEFT.arg.quals.arg) == 0;
    assert Junctions(QUALS.args[1]) == 0 && JunctionsOf(QUALS.args[1..]) == JunctionsOf(QUALS.args[1..][1..]) == 0;
  }

  lemma PassesMake(s: Script)
    requires WellScoped(CAT, TOP, QUALS) && s == FirstPass(CAT, [1], QUALS)
    ensures s.trueVars == [TOP, IN_S, IN_U, IN_T]
    ensures s.listTrue == [Needed(CAT, TOP, true, QUALS)] && |s.listFalse| == 1
  {
    Scopes();
    Nodes();
    OneNode(CAT, TOP, false, QUALS);
    OneNode(CAT, TOP, true, QUALS);
  }

  /** The walk down the left argument changes nothing; the comparison in the right one gets one test. */
  lemma LeftKept(s: Script, st: Context)
    requires st == Context(true, false, [], Needed(CAT, TOP, true, QUALS), 1, TOP, 1)
    requires WellScoped(CAT, TOP, QUALS) && s.trueVars == [TOP, IN_S, IN_U, IN_T]
    ensures Mutate(s, st, LEFT) == (LEFT, st.(atQuery := 3))
  {
    var st1 := EnterQuery(s, st.(positive := false));
    var st2 := EnterQuery(s, st1.(positive := true));
    assert st1.trueVar == IN_S && st2.trueVar == IN_U;
    assert Mutate(s, st2, EQ) == (EQ, st2);
    assert Mutate(s, st1.(positive := true), Exists([4], EQ)) ==
      (Exists([4], EQ), st1.(positive := true, atQuery := 3));
    assert Mutate(s, st1, LEFT.arg.quals) == (LEFT.arg.quals, st1.(atQuery := 3));
    assert Mutate(s, st.(positive := false), LEFT.arg) == (LEFT.arg, st.(positive := false, atQuery := 3));
  }

  lemma RightTested(s: Script, st: Context)
    requires st.positive && !st.ready && st.toAdd == [] && st.atQuery == 3 && s.trueVars == [TOP, IN_S, IN_U, IN_T]
    requires Attr(1, 1) in st.notNull && Attr(3, 1) !in st.notNull
    ensures Mutate(s, st, QUALS.args[1]).0 == REWRITTEN.args[1]
  {
    var st1 := EnterQuery(s, st.(positive := false));
    var st2 := st1.(ready := true);
    assert st1.trueVar == IN_T;
    assert !Skipped(st2, NE.terms[0]) && Skipped(st2, NE.terms[1]);
    assert NullTests(st2, NE.terms[1..]) == NullTests(st2, NE.terms[1..][1..]) == [];
    assert NullTests(st2, NE.terms) == [IsNull(Column(0, 1, 1))];
    assert MutateCompare(st1, NE).0 == TESTED;
    assert Mutate(s, st.(positive := false), Exists([3], NE)).0 == Exists([3], TESTED);
  }

  lemma HookRewrites()
    ensures WellScoped(CAT, TOP, QUALS)
    ensures var s := FirstPass(CAT, [1], QUALS); Mutate(s, Start(s, []), QUALS).0 == REWRITTEN
  {
    ListedColumn();
    var s := FirstPass(CAT, [1], QUALS);
    PassesMake(s);
    var st := EnterJunction(s, Start(s, []));
    assert st == Context(true, false, [], Needed(CAT, TOP, true, QUALS), 1, TOP, 1);
    LeftKept(s, st);
    RightTested(s, st.(atQuery := 3));
    var rs := MutateArgs(s, st, QUALS.args).0;
    assert MutateArgs(s, st.(atQuery := 3), QUALS.args[1..]).0[0] == REWRITTEN.args[1];
    assert rs == REWRITTEN.args;
  }

  lemma HookReturns()
    ensures Returns(OPS, DB, [1], REWRITTEN, [0])
  {
    var env: Env := [Picked(DB, [1], [0])];
    forall pick ensures !Picks(DB, [2], pick) {
      assert Picks(DB, [2], pick) ==> pick[0] < |Rows(DB, 2)|;
    }
    assert Eval(OPS, DB, env, LEFT.arg) == False;
    forall pick | Picks(DB, [3], pick) ensures Eval(OPS, DB, [Picked(DB, [3], pick)] + env, TESTED) != True {
      var full := [Picked(DB, [3], pick)] + env;
      assert pick[0] == 0;
      assert TermValue(full, Column(0, 1, 1)) == Val(5);
      assert TermValues(full, NE.terms)[1] == Null;
      assert Eval(OPS, DB, full, TESTED.args[0]) == False && Eval(OPS, DB, full, TESTED.args[1]) == Unknown;
    }
    assert Eval(OPS, DB, env, Exists([3], TESTED)) == False;
  }

  lemma QueryDoesNot()
    ensures !Returns(OPS, FILLED, [1], QUALS, [0])
  {
    var env: Env := [Picked(FILLED, [1], [0])];
    var full: Env := [Picked(FILLED, [3], [0])] + env;
    assert TermValues(full, NE.terms) == [Val(5), Val(1)];
    assert Ints([Val(5), Val(1)]) == [5, 1];
    assert Eval(OPS, FILLED, full, NE) == True;
    assert Eval(OPS, FILLED, env, Exists([3], NE)) == True;
    assert Eval(OPS, FILLED, env, QUALS.args[1]) == False;
  }

  lemma FilledCompletes()
    ensures CompletesDb(DB, FILLED) && DbObeys(CAT, DB)
  {
    forall rel: nat ensures CompletesRows(Rows(DB, rel), Rows(FILLED, rel)) {}
    forall rel: nat, i | 0 <= i < |Rows(DB, rel)| ensures RowObeys(CAT.notNull, Columns(CAT, rel), Rows(DB, rel)[i]) {}
  }

  lemma InFragment()
    ensures Supported(CAT, true, TOP, QUALS) && Covered(CAT, true, TOP, QUALS) && NoNullTest(QUALS)
  {
    assert Supported(CAT, true, IN_S, Exists([4], EQ)) && Covered(CAT, true, IN_S, Exists([4], EQ)) &&
      NoNullTest(Exists([4], EQ));
    assert Supported(CAT, false, TOP, LEFT.arg) && Covered(CAT, false, TOP, LEFT.arg) && NoNullTest(LEFT.arg);
    assert Supported(CAT, false, TOP, QUALS.args[1].arg) && Covered(CAT, false, TOP, QUALS.args[1].arg) &&
      NoNullTest(QUALS.args[1].arg);
  }

  lemma OuterListed(q: Cond)
    requires q == LEFT.arg.quals && WellScoped(CAT, TOP, Exists([2], q))
    ensures !Grounded(CAT, TOP, false, Exists([2], q))
  {
    LeftList();
    var inner := [ScopeOf(CAT, [2])] + TOP;
    assert Needed(CAT, TOP, true, LEFT) == Needed(CAT, TOP, false, Exists([2], q)) == Needed(CAT, inner, false, q);
    assert Attr(1, 1) in Needed(CAT, inner, false, q);
    assert TOP[0][0][0] == Attr(1, 1);
    assert InChain(TOP, Attr(1, 1));
  }

  lemma NotGrounded()
    ensures WellScoped(CAT, TOP, QUALS) && !Grounded(CAT, TOP, true, QUALS)
  {
    Scoped();
    LeftList();
    OuterListed(LEFT.arg.quals);
    assert !Grounded(CAT, TOP, true, QUALS.args[0]);
  }

  lemma NotCertain(r: Cond)
    requires r == REWRITTEN
    ensures !Certain(CAT, [1], QUALS, r)
  {
    HookReturns();
    QueryDoesNot();
    FilledCompletes();
  }

  /**
   The AND trusts that r.a has a value, because its first argument mentions it two EXISTS down; no test on
   r.a is made.
   */
  lemma ListThroughExistsIsNotCertain()
    ensures WellScoped(CAT, TOP, QUALS) && Supported(CAT, true, TOP, QUALS) && Covered(CAT, true, TOP, QUALS)
    ensures NoNullTest(QUALS)
    ensures !Grounded(CAT, TOP, true, QUALS)
    ensures var s := FirstPass(CAT, [1], QUALS); !Certain(CAT, [1], QUALS, Mutate(s, Start(s, []), QUALS).0)
  {
    InFragment();
    NotGrounded();
    HookRewrites();
    NotCertain(REWRITTEN);
  }
}
