/**
 Shared cells and the lookup together: no subquery in any AND or OR, and still a test is skipped,
 because the list of an OR under a NOT has grown and another OR takes it.
 */
module HookNots {
  import opened Sql
  import opened Completions
  import opened Mutator
  import opened TrueVar
  import opened Walker
  import opened SharedLists
  import opened SkipSound
  import opened Hook
  import opened HookLookup
  import opened HookShapes
  import opened HookPairs
  import MutatorLimits

  // r (z) WHERE NOT EXISTS (t (b, k NOT NULL) WHERE NOT (NOT t.k = 1 OR t.k = 2) AND (t.b <> r.z OR t.b > r.z)),
  // on r = {(NULL)} and t = {(5, 1)}.
  const CAT := Catalog(map[1 := 1, 2 := 2], {Attr(2, 2)})
  const ONE := Compare(98, [Column(0, 1, 2), Literal(Val(1))])
  const TWO := Compare(98, [Column(0, 1, 2), Literal(Val(2))])
  const NE := Compare(518, [Column(0, 1, 1), Column(1, 1, 1)])
  const GT := Compare(521, [Column(0, 1, 1), Column(1, 1, 1)])
  const KEYS := Or([Not(ONE), TWO])
  const PAIR := Or([NE, GT])
  const BODY := And([Not(KEYS), PAIR])
  const SUB := Exists([2], BODY)
  const QUALS := Not(SUB)
  const TOP: Chain := [ScopeOf(CAT, [1])]
  const INNER: Chain := [ScopeOf(CAT, [2])] + TOP
  const K := Attr(2, 2)
  const B := Attr(2, 1)
  const Z := Attr(1, 1)
  const DB: Database := map[1 := [[Null]], 2 := [[Val(5), Val(1)]]]
  const FILLED: Database := map[1 := [[Val(1)]], 2 := [[Val(5), Val(1)]]]
  const OPS: Operators := (op, vs) =>
    |vs| == 2 && (if op == 518 then vs[0] != vs[1] else if op == 521 then vs[0] > vs[1] else vs[0] == vs[1])

  lemma Scoped()
    ensures WellScoped(CAT, INNER, ONE) && WellScoped(CAT, INNER, TWO) && WellScoped(CAT, INNER, NE)
    ensures WellScoped(CAT, INNER, GT)
    ensures WellScoped(CAT, INNER, KEYS) && WellScoped(CAT, INNER, PAIR) && WellScoped(CAT, INNER, BODY)
    ensures WellScoped(CAT, TOP, QUALS)
  {
    assert WellScoped(CAT, INNER, Not(ONE)) && WellScoped(CAT, INNER, KEYS) && WellScoped(CAT, INNER, PAIR);
    assert WellScoped(CAT, INNER, Not(KEYS)) && WellScoped(CAT, INNER, BODY);
    assert WellScoped(CAT, TOP, SUB);
  }

  // ----- the lists -----

  lemma ColumnsNeeded(c: Cond)
    requires c == NE || c == GT
    ensures WellScoped(CAT, INNER, c) && Needed(CAT, INNER, true, c) == [B, Z]
  {
    assert c.terms[..1][..0] == [];
    assert ColumnsOf(INNER, c.terms[..1]) == [B];
    assert ColumnsOf(INNER, c.terms) == [B, Z];
    assert [B, Z][..1] == [B];
    OneDedup(B);
    assert Dedup([B, Z]) == [B, Z];
  }

  lemma BothTwice(l: seq<Attr>)
    requires l == [B, Z] + [B, Z]
    ensures forall a :: a in Occurring(l, l, 2) <==> a == B || a == Z
  {
    OccurringMeans(l, l, 2);
    assert l == [B, Z, B, Z];
    assert multiset(l)[B] == 2 && multiset(l)[Z] == 2;
  }

  /** Both comparisons of the second OR need t.b and r.z. */
  lemma PairNeedsBoth()
    ensures WellScoped(CAT, INNER, PAIR) && forall a :: a in Needed(CAT, INNER, true, PAIR) <==> a == B || a == Z
  {
    Scoped();
    ColumnsNeeded(NE);
    ColumnsNeeded(GT);
    PairNeeds(CAT, INNER, true, NE, GT);
    BothTwice(Needs(CAT, INNER, true, [NE, GT]));
  }

  /** To be false, the OR under the NOT needs t.k. */
  lemma KeysNeeded()
    ensures WellScoped(CAT, INNER, KEYS) && Needed(CAT, INNER, false, KEYS) == [K]
  {
    Scoped();
    AtomNeeds(CAT, INNER, ONE, Column(0, 1, 2), Val(1));
    PairNeeds(CAT, INNER, false, Not(ONE), TWO);
    OneDedup(K);
  }

  lemma Nodes()
    ensures Junctions(KEYS) == 1 && Junctions(PAIR) == 1 && Junctions(BODY) == 3 && Junctions(QUALS) == 3
  {
    PairNodes(Not(ONE), TWO);
    PairNodes(NE, GT);
    PairNodes(Not(KEYS), PAIR);
    assert Junctions(Not(ONE)) == 0 && Junctions(Not(KEYS)) == 1;
    assert Junctions(SUB) == 3;
  }

  /** The list of the OR under the NOT goes on with what the second OR needs to be true. */
  lemma StoredLists(s: Script)
    requires WellScoped(CAT, TOP, QUALS) && WellScoped(CAT, INNER, PAIR) && s == FirstPass(CAT, [1], QUALS)
    ensures |s.listTrue| == |s.listFalse| == 3 && s.listFalse[0] == Grown([K], Needed(CAT, INNER, true, PAIR))
  {
    Scoped();
    Nodes();
    KeysNeeded();
    SharedCount(CAT, TOP, true, QUALS, [], []);
    SharedCount(CAT, TOP, false, QUALS, [], []);
    SubShared();
    NegatedShared(CAT, INNER, false, BODY, KEYS, PAIR);
  }

  lemma SubShared()
    requires WellScoped(CAT, TOP, QUALS) && WellScoped(CAT, INNER, BODY)
    ensures Shared(CAT, TOP, false, QUALS, [], []) == Shared(CAT, INNER, false, BODY, [], [])
  {
    assert Shared(CAT, TOP, false, SUB, [], []) == Shared(CAT, INNER, false, BODY, [], []);
  }

  lemma Scopes(s: Script)
    requires WellScoped(CAT, TOP, QUALS) && s == FirstPass(CAT, [1], QUALS)
    ensures s.trueVars == [TOP, INNER]
  {
    PairChains(CAT, INNER, Not(ONE), TWO);
    PairChains(CAT, INNER, NE, GT);
    PairChains(CAT, INNER, Not(KEYS), PAIR);
    assert Chains(CAT, INNER, Not(ONE)) == [] && Chains(CAT, INNER, Not(KEYS)) == [] && Chains(CAT, INNER, BODY) == [];
    assert Chains(CAT, TOP, SUB) == [INNER];
  }

  // ----- nothing is rewritten -----

  /** A comparison whose columns are all on the list is left alone. */
  lemma CompareKept(s: Script, st: Context, c: Cond)
    requires c.Compare? && st.toAdd == []
    requires forall i :: 0 <= i < |c.terms| && c.terms[i].Column? ==> Skipped(st, c.terms[i])
    ensures Mutate(s, st, c) == (c, st.(ready := st.ready || (!st.positive && c.op in LISTED)))
  {
    MutatorLimits.NullTestsOnly(st.(ready := true), c.terms);
  }

  lemma OneKept(s: Script, st: Context)
    requires st.positive && st.toAdd == [] && st.trueVar == INNER && K in st.notNull
    ensures Mutate(s, st, Not(ONE)) == (Not(ONE), st.(ready := true))
  {
    CompareKept(s, st.(positive := false), ONE);
  }

  lemma TwoKept(s: Script, st: Context)
    requires st.positive && st.toAdd == [] && st.trueVar == INNER && K in st.notNull
    ensures Mutate(s, st, TWO) == (TWO, st)
  {
    CompareKept(s, st, TWO);
  }

  lemma KeysKept(s: Script, st: Context)
    requires st.positive && st.toAdd == [] && st.trueVar == INNER && K in st.notNull
    ensures Mutate(s, st, KEYS) == (KEYS, st.(ready := true, at := st.at + 1))
  {
    var st1 := EnterJunction(s, st);
    OneKept(s, st1);
    TwoKept(s, st1.(ready := true));
    PairMutated(s, st1, Not(ONE), TWO);
  }

  lemma PairKept(s: Script, st: Context)
    requires !st.positive && st.toAdd == [] && st.trueVar == INNER
    requires B in EnterJunction(s, st).notNull && Z in EnterJunction(s, st).notNull
    ensures Mutate(s, st, PAIR).0 == PAIR
  {
    var st1 := EnterJunction(s, st);
    CompareKept(s, st1, NE);
    CompareKept(s, st1.(ready := true), GT);
    PairMutated(s, st1, NE, GT);
  }

  /** The second OR is the third node; it takes the third list from the end. */
  lemma BodyKept(s: Script, st: Context)
    requires !st.positive && st.toAdd == [] && st.trueVar == INNER && st.at == 0 && K in st.notNull
    requires |s.listTrue| == 3 == |s.listFalse| && B in s.listFalse[0] && Z in s.listFalse[0]
    ensures Mutate(s, st, BODY).0 == BODY
  {
    var st1 := EnterJunction(s, st);
    KeysKept(s, st1.(positive := true));
    var st2 := st1.(ready := true, at := 2);
    assert Mutate(s, st1, Not(KEYS)) == (Not(KEYS), st2);
    PairKept(s, st2);
    PairMutated(s, st1, Not(KEYS), PAIR);
  }

  lemma HookKeeps(s: Script)
    requires WellScoped(CAT, TOP, QUALS) && s == FirstPass(CAT, [1], QUALS)
    ensures Mutate(s, Start(s, [K]), QUALS).0 == QUALS
  {
    PairNeedsBoth();
    StoredLists(s);
    Scopes(s);
    var st := EnterQuery(s, Start(s, [K]).(positive := false));
    BodyKept(s, st);
    assert Mutate(s, Start(s, [K]).(positive := false), SUB).0 == SUB;
  }

  // ----- before and after -----

  lemma KeysFail(db: Database, env: Env)
    requires TermValue(env, Column(0, 1, 2)) == Val(1)
    ensures Eval(OPS, db, env, Not(KEYS)) == True
  {
    assert TermValues(env, ONE.terms) == [Val(1), Val(1)] && Ints([Val(1), Val(1)]) == [1, 1];
    assert TermValues(env, TWO.terms) == [Val(1), Val(2)] && Ints([Val(1), Val(2)]) == [1, 2];
    assert Eval(OPS, db, env, ONE) == True && Eval(OPS, db, env, Not(ONE)) == False && Eval(OPS, db, env, TWO) == False;
    assert forall i :: 0 <= i < 2 ==> KEYS.args[i] == Not(ONE) || KEYS.args[i] == TWO;
    assert Eval(OPS, db, env, KEYS) == False;
  }

  lemma QueryReturns()
    ensures Returns(OPS, DB, [1], QUALS, [0])
  {
    var env: Env := [Picked(DB, [1], [0])];
    forall pick | Picks(DB, [2], pick) ensures Eval(OPS, DB, [Picked(DB, [2], pick)] + env, BODY) != True {
      BodyUnknown([Picked(DB, [2], pick)] + env);
    }
    assert Eval(OPS, DB, env, SUB) == False;
  }

  lemma BodyUnknown(env: Env)
    requires TermValue(env, Column(1, 1, 1)) == Null
    ensures Eval(OPS, DB, env, BODY) != True
  {
    assert TermValues(env, NE.terms)[1] == Null && TermValues(env, GT.terms)[1] == Null;
    assert forall i :: 0 <= i < 2 ==> PAIR.args[i] == NE || PAIR.args[i] == GT;
    assert Eval(OPS, DB, env, NE) == Unknown && Eval(OPS, DB, env, GT) == Unknown;
    assert PAIR.args[0] == NE && Eval(OPS, DB, env, PAIR.args[0]) == Unknown;
    assert Eval(OPS, DB, env, PAIR) == Unknown;
    assert BODY.args[1] == PAIR;
  }

  lemma CompletedDoesNot()
    ensures !Returns(OPS, FILLED, [1], QUALS, [0])
  {
    var env: Env := [Picked(FILLED, [1], [0])];
    var full: Env := [Picked(FILLED, [2], [0])] + env;
    KeysFail(FILLED, full);
    assert TermValues(full, NE.terms) == [Val(5), Val(1)] && Ints([Val(5), Val(1)]) == [5, 1];
    assert Eval(OPS, FILLED, full, PAIR.args[0]) == True;
    assert Eval(OPS, FILLED, full, PAIR) == True;
    assert forall i :: 0 <= i < 2 ==> BODY.args[i] == Not(KEYS) || BODY.args[i] == PAIR;
    assert Eval(OPS, FILLED, full, BODY) == True;
    assert Eval(OPS, FILLED, env, SUB) == True;
  }

  lemma FilledCompletes()
    ensures CompletesDb(DB, FILLED) && DbObeys(CAT, DB)
  {
    forall rel: nat ensures CompletesRows(Rows(DB, rel), Rows(FILLED, rel)) {}
    forall rel: nat, i | 0 <= i < |Rows(DB, rel)| ensures RowObeys(CAT.notNull, Columns(CAT, rel), Rows(DB, rel)[i]) {}
  }

  lemma InKeys()
    ensures TwoValued(CAT, INNER, KEYS) && Supported(CAT, true, INNER, KEYS) && Covered(CAT, true, INNER, KEYS)
    ensures NoNullTest(KEYS) && ExistsFree(KEYS)
  {
    assert TwoValued(CAT, INNER, Not(ONE)) && Supported(CAT, true, INNER, Not(ONE)) &&
      Covered(CAT, true, INNER, Not(ONE));
    assert NoNullTest(Not(ONE)) && ExistsFree(Not(ONE));
  }

  lemma InBody()
    ensures Supported(CAT, false, INNER, BODY) && Covered(CAT, false, INNER, BODY) && NoNullTest(BODY)
    ensures ExistsFree(BODY)
  {
    InKeys();
    assert BODY.args[0] == Not(KEYS) && BODY.args[1] == PAIR;
    assert Supported(CAT, false, INNER, Not(KEYS)) && Covered(CAT, false, INNER, Not(KEYS));
    assert NoNullTest(Not(KEYS)) && ExistsFree(Not(KEYS));
    assert Supported(CAT, false, INNER, PAIR) && Covered(CAT, false, INNER, PAIR) && NoNullTest(PAIR) &&
      ExistsFree(PAIR);
  }

  lemma InFragment()
    ensures Supported(CAT, true, TOP, QUALS) && Covered(CAT, true, TOP, QUALS) && NoNullTest(QUALS)
    ensures PlainJunctions(QUALS)
  {
    InBody();
    assert Supported(CAT, false, TOP, SUB) && Covered(CAT, false, TOP, SUB) && NoNullTest(SUB);
    assert PlainJunctions(BODY) && PlainJunctions(SUB);
  }

  lemma Shapes()
    ensures !Spine(QUALS) && !FlatBlocks(QUALS)
  {
    Nodes();
    assert Junctions(BODY.args[0]) > 0 && Junctions(BODY.args[1]) > 0;
    assert !Spine(BODY) && !Spine(SUB);
    assert !FlatNots(BODY.args[0]) && !FlatNots(BODY) && !FlatBlocks(SUB);
  }

  /** Without a subquery in any AND or OR: the test on r.z is skipped in both comparisons. */
  lemma PlainJunctionsAreNotEnough()
    ensures WellScoped(CAT, TOP, QUALS) && Supported(CAT, true, TOP, QUALS) && Covered(CAT, true, TOP, QUALS)
    ensures NoNullTest(QUALS) && PlainJunctions(QUALS) && !Spine(QUALS) && !FlatBlocks(QUALS)
    ensures var s := FirstPass(CAT, [1], QUALS); !Certain(CAT, [1], QUALS, Mutate(s, Start(s, [K]), QUALS).0)
  {
    Scoped();
    InFragment();
    Shapes();
    HookKeeps(FirstPass(CAT, [1], QUALS));
    QueryReturns();
    CompletedDoesNot();
    FilledCompletes();
  }
}
