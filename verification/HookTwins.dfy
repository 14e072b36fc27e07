/**
 Sound lists are not enough: a list names columns of base relations, and a relation that two
 subqueries read stands for different rows in each.
 */
module HookTwins {
  import opened Sql
  import opened Completions
  import opened Mutator
  import opened TrueVar
  import opened Walker
  import opened SharedLists
  import opened SkipLists
  import opened SkipSound
  import opened Hook
  import opened HookPairs
  import HookLookup

  // r WHERE EXISTS (u WHERE u.c = 1) AND NOT EXISTS (u WHERE u.c <> 1), on r = {(7)} and u = {(1), (NULL)}.
  const CAT := Catalog(map[1 := 1, 2 := 1], {})
  const EQ := Compare(98, [Column(0, 1, 1), Literal(Val(1))])
  const NE := Compare(518, [Column(0, 1, 1), Literal(Val(1))])
  const QUALS := And([Exists([2], EQ), Not(Exists([2], NE))])
  const TOP: Chain := [ScopeOf(CAT, [1])]
  const INNER: Chain := [ScopeOf(CAT, [2])] + TOP
  const DB: Database := map[1 := [[Val(7)]], 2 := [[Val(1)], [Null]]]
  const FILLED: Database := map[1 := [[Val(7)]], 2 := [[Val(1)], [Val(5)]]]
  const OPS: Operators := (op, vs) => |vs| == 2 && (op == 518 <==> vs[0] != vs[1])

  lemma Scoped()
    ensures WellScoped(CAT, INNER, EQ) && WellScoped(CAT, INNER, NE)
    ensures WellScoped(CAT, TOP, QUALS.args[0]) && WellScoped(CAT, TOP, QUALS.args[1].arg)
    ensures WellScoped(CAT, TOP, QUALS)
  {
    assert WellScoped(CAT, INNER, EQ) && WellScoped(CAT, INNER, NE);
    assert WellScoped(CAT, TOP, QUALS.args[1].arg);
  }

  lemma ListedColumn()
    ensures WellScoped(CAT, TOP, QUALS) && Attr(2, 1) in Needed(CAT, TOP, true, QUALS)
  {
    Scoped();
    assert ColumnsOf(INNER, EQ.terms[..1]) == [Attr(2, 1)] by { assert EQ.terms[..1][..0] == []; }
    assert ColumnsOf(INNER, EQ.terms) == [Attr(2, 1)];
    DedupMeans(ColumnsOf(INNER, EQ.terms));
    var ls := NeededArgs(CAT, TOP, true, QUALS.args);
    assert ls[0] == Needed(CAT, INNER, true, EQ);
    assert Flatten(ls) == ls[0] + Flatten(ls[1..]);
    DedupMeans(Flatten(ls));
  }

  lemma PassesMake(s: Script)
    requires WellScoped(CAT, TOP, QUALS) && s == FirstPass(CAT, [1], QUALS)
    ensures s.trueVars == [TOP, INNER, INNER]
    ensures s.listTrue == [Needed(CAT, TOP, true, QUALS)] && |s.listFalse| == 1
  {
    assert Chains(CAT, INNER, EQ) == [] && Chains(CAT, INNER, NE) == [];
    assert Chains(CAT, TOP, QUALS.args[0]) == [INNER] && Chains(CAT, TOP, QUALS.args[1].arg) == [INNER];
    assert ChainsOf(CAT, TOP, QUALS.args[1..]) ==
      Chains(CAT, TOP, QUALS.args[1]) + ChainsOf(CAT, TOP, QUALS.args[1..][1..]) == [INNER];
    assert ChainsOf(CAT, TOP, QUALS.args) == [INNER] + [INNER];
    assert Junctions(QUALS.args[0]) == Junctions(QUALS.args[1]) == 0 &&
      JunctionsOf(QUALS.args[1..]) == JunctionsOf(QUALS.args[1..][1..]) == 0;
    assert Junctions(QUALS) == 1;
    OneNode(CAT, TOP, true, QUALS);
    OneNode(CAT, TOP, false, QUALS);
  }

  /** The test on u.c is skipped in the second subquery too. */
  lemma RightKept(s: Script, st: Context)
    requires st.positive && !st.ready && st.toAdd == [] && st.atQuery == 2 && s.trueVars == [TOP, INNER, INNER]
    requires Attr(2, 1) in st.notNull
    ensures Mutate(s, st, QUALS.args[1]).0 == QUALS.args[1]
  {
    var st1 := EnterQuery(s, st.(positive := false));
    var st2 := st1.(ready := true);
    assert Skipped(st2, NE.terms[0]);
    assert NullTests(st2, NE.terms[1..]) == NullTests(st2, NE.terms[1..][1..]) == [];
    assert MutateCompare(st1, NE).0 == NE;
    assert Mutate(s, st.(positive := false), Exists([2], NE)).0 == Exists([2], NE);
  }

  lemma LeftKept(s: Script, st: Context)
    requires st.positive && !st.ready && st.toAdd == [] && st.atQuery == 1
    ensures Mutate(s, st, QUALS.args[0]) == (QUALS.args[0], st.(atQuery := 2))
  {
    assert Mutate(s, EnterQuery(s, st), EQ) == (EQ, EnterQuery(s, st));
  }

  lemma HookKeeps()
    ensures WellScoped(CAT, TOP, QUALS)
    ensures var s := FirstPass(CAT, [1], QUALS); Mutate(s, Start(s, []), QUALS).0 == QUALS
  {
    ListedColumn();
    var s := FirstPass(CAT, [1], QUALS);
    PassesMake(s);
    var st := EnterJunction(s, Start(s, []));
    assert st == Context(true, false, [], Needed(CAT, TOP, true, QUALS), 1, TOP, 1);
    LeftKept(s, st);
    RightKept(s, st.(atQuery := 2));
    PairMutated(s, st, QUALS.args[0], QUALS.args[1]);
  }

  lemma QueryReturns()
    ensures Returns(OPS, DB, [1], QUALS, [0])
  {
    var env: Env := [Picked(DB, [1], [0])];
    var one: Env := [Picked(DB, [2], [0])] + env;
    assert TermValues(one, EQ.terms) == [Val(1), Val(1)] && Ints([Val(1), Val(1)]) == [1, 1];
    assert Eval(OPS, DB, one, EQ) == True;
    forall pick | Picks(DB, [2], pick) ensures Eval(OPS, DB, [Picked(DB, [2], pick)] + env, NE) != True {
      var full := [Picked(DB, [2], pick)] + env;
      if pick[0] == 0 {
        assert TermValues(full, NE.terms) == [Val(1), Val(1)];
      } else {
        assert pick[0] == 1 && TermValues(full, NE.terms)[0] == Null;
      }
    }
    assert Eval(OPS, DB, env, Exists([2], NE)) == False;
  }

  lemma CompletedDoesNot()
    ensures !Returns(OPS, FILLED, [1], QUALS, [0])
  {
    var env: Env := [Picked(FILLED, [1], [0])];
    var full: Env := [Picked(FILLED, [2], [1])] + env;
    assert TermValues(full, NE.terms) == [Val(5), Val(1)] && Ints([Val(5), Val(1)]) == [5, 1];
    assert Eval(OPS, FILLED, full, NE) == True;
    assert Picks(FILLED, [2], [1]);
    assert Eval(OPS, FILLED, env, Exists([2], NE)) == True;
    assert Eval(OPS, FILLED, env, QUALS.args[1]) == False;
  }

  lemma FilledCompletes()
    ensures CompletesDb(DB, FILLED) && DbObeys(CAT, DB)
  {
    forall rel: nat ensures CompletesRows(Rows(DB, rel), Rows(FILLED, rel)) {}
    forall rel: nat, i | 0 <= i < |Rows(DB, rel)| ensures RowObeys(CAT.notNull, Columns(CAT, rel), Rows(DB, rel)[i]) {}
  }

  lemma InFragment()
    ensures Supported(CAT, true, TOP, QUALS) && Covered(CAT, true, TOP, QUALS) && NoNullTest(QUALS)
    ensures HookLookup.Spine(QUALS)
  {
    var sub := QUALS.args[1].arg;
    assert Supported(CAT, false, TOP, sub) && Covered(CAT, false, TOP, sub) && NoNullTest(sub) && HookLookup.Spine(sub);
    assert Junctions(sub) == 0 && HookLookup.Spine(QUALS.args[1]);
  }

  lemma ListIsSound()
    ensures Trusted(CAT, TOP, QUALS)
  {
    Scoped();
    var sub := QUALS.args[1].arg;
    assert Needed(CAT, INNER, false, NE) == [];
    assert Grounded(CAT, TOP, false, sub);
    assert Grounded(CAT, TOP, true, QUALS.args[1]);
    assert OnceOnly(INNER);
    assert OneEach(CAT, TOP, sub);
    assert OneEach(CAT, TOP, QUALS.args[1]);
  }

  /** Every inferred list is sound and every node finds its own, and the result is not certain. */
  lemma TwinSubqueriesAreNotCertain()
    ensures WellScoped(CAT, TOP, QUALS) && Supported(CAT, true, TOP, QUALS) && Covered(CAT, true, TOP, QUALS)
    ensures NoNullTest(QUALS)
    ensures Trusted(CAT, TOP, QUALS) && HookLookup.Spine(QUALS)
    ensures var s := FirstPass(CAT, [1], QUALS); !Certain(CAT, [1], QUALS, Mutate(s, Start(s, []), QUALS).0)
  {
    HookKeeps();
    QueryReturns();
    CompletedDoesNot();
    FilledCompletes();
    InFragment();
    ListIsSound();
  }
}
