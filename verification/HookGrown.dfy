/**
 Shared cells, end to end: the list of an AND inside an OR gains the columns of the OR's next
 argument, which need not have values where the AND is true.
 */
module HookGrown {
  import opened Sql
  import opened Completions
  import opened Mutator
  import opened TrueVar
  import opened Walker
  import opened SharedLists
  import opened SkipSound
  import opened Hook
  import opened HookLookup
  import opened HookSpine
  import opened HookPairs

  // r (k NOT NULL, y) WHERE (r.k = 1 AND NOT EXISTS (t WHERE t.b <> r.y)) OR r.y = 2, on r = {(1, NULL)} and t = {(5)}.
  const CAT := Catalog(map[1 := 2, 2 := 1], {Attr(1, 1)})
  const KEY := Compare(98, [Column(0, 1, 1), Literal(Val(1))])
  const NE := Compare(518, [Column(0, 1, 1), Column(1, 1, 2)])
  const LAST := Compare(98, [Column(0, 1, 2), Literal(Val(2))])
  const SUB := Exists([2], NE)
  const FIRST := And([KEY, Not(SUB)])
  const QUALS := Or([FIRST, LAST])
  const TOP: Chain := [ScopeOf(CAT, [1])]
  const INNER: Chain := [ScopeOf(CAT, [2])] + TOP
  const TESTED := Or([IsNull(Column(0, 1, 1)), NE])
  const DB: Database := map[1 := [[Val(1), Null]], 2 := [[Val(5)]]]
  const FILLED: Database := map[1 := [[Val(1), Val(1)]], 2 := [[Val(5)]]]
  const OPS: Operators := (op, vs) => |vs| == 2 && (op == 518 <==> vs[0] != vs[1])

  lemma Scoped()
    ensures WellScoped(CAT, TOP, SUB) && WellScoped(CAT, TOP, KEY) && WellScoped(CAT, TOP, LAST)
    ensures WellScoped(CAT, TOP, FIRST) && WellScoped(CAT, TOP, QUALS)
  {
    assert WellScoped(CAT, INNER, NE);
    assert WellScoped(CAT, TOP, SUB);
    assert WellScoped(CAT, TOP, FIRST.args[1]);
    assert WellScoped(CAT, TOP, FIRST);
  }

  // ----- the lists -----

  /** The AND needs r.k, the OR nothing. */
  lemma InferredLists()
    ensures WellScoped(CAT, TOP, FIRST) && WellScoped(CAT, TOP, LAST) && WellScoped(CAT, TOP, QUALS)
    ensures Needed(CAT, TOP, true, FIRST) == [Attr(1, 1)] && Needed(CAT, TOP, true, LAST) == [Attr(1, 2)]
    ensures Needed(CAT, TOP, true, QUALS) == []
  {
    Scoped();
    AtomNeeds(CAT, TOP, KEY, Column(0, 1, 1), Val(1));
    AtomNeeds(CAT, TOP, LAST, Column(0, 1, 2), Val(2));
    assert Needed(CAT, TOP, false, SUB) == Needed(CAT, INNER, false, NE) == [];
    PairNeeds(CAT, TOP, true, KEY, Not(SUB));
    PairNeeds(CAT, TOP, true, FIRST, LAST);
    OneDedup(Attr(1, 1));
    NoneTwice();
  }

  lemma NoneTwice()
    ensures var l := [Attr(1, 1)] + [Attr(1, 2)]; Occurring(l, l, 2) == []
  {
    var l := [Attr(1, 1), Attr(1, 2)];
    OccurringMeans(l, l, 2);
    assert multiset(l)[Attr(1, 1)] == 1 && multiset(l)[Attr(1, 2)] == 1;
    var r := Occurring(l, l, 2);
    assert forall i :: 0 <= i < |r| ==> r[i] in r;
    assert l == [Attr(1, 1)] + [Attr(1, 2)];
  }

  lemma Nodes()
    ensures Junctions(SUB) == 0 && Junctions(FIRST) == 1 && Junctions(QUALS) == 2 && Spine(QUALS)
  {
    assert Junctions(SUB) == 0 && Junctions(Not(SUB)) == 0;
    PairNodes(KEY, Not(SUB));
    PairNodes(FIRST, LAST);
    assert Spine(SUB) && Spine(Not(SUB)) && Spine(FIRST);
  }

  /** The stored list of the AND goes on with r.y. */
  lemma StoredLists(s: Script)
    requires WellScoped(CAT, TOP, QUALS) && s == FirstPass(CAT, [1], QUALS)
    ensures s.listTrue == [[Attr(1, 1), Attr(1, 2)], []] && |s.listFalse| == 2
  {
    InferredLists();
    Nodes();
    SharedCount(CAT, TOP, false, QUALS, [], []);
    FirstShared(CAT, TOP, true, QUALS, FIRST, LAST);
    assert Grown([Attr(1, 1)], [Attr(1, 2)]) == [Attr(1, 1), Attr(1, 2)];
  }

  lemma Scopes(s: Script)
    requires WellScoped(CAT, TOP, QUALS) && s == FirstPass(CAT, [1], QUALS)
    ensures s.trueVars == [TOP, INNER]
  {
    PairChains(CAT, TOP, KEY, Not(SUB));
    PairChains(CAT, TOP, FIRST, LAST);
    assert Chains(CAT, INNER, NE) == [] && Chains(CAT, TOP, SUB) == [INNER] && Chains(CAT, TOP, Not(SUB)) == [INNER];
    assert Chains(CAT, TOP, FIRST) == [INNER];
  }

  // ----- the rewriting -----

  /** With r.y on the list, only t.b is tested. */
  lemma SubTested(s: Script, st: Context)
    requires st.positive && !st.ready && st.toAdd == [] && st.atQuery == 1 && s.trueVars == [TOP, INNER]
    requires Attr(1, 2) in st.notNull && Attr(2, 1) !in st.notNull
    ensures Mutate(s, st, Not(SUB)).0 == Not(Exists([2], TESTED))
  {
    var st1 := EnterQuery(s, st.(positive := false));
    var st2 := st1.(ready := true);
    assert st1.trueVar == INNER;
    assert !Skipped(st2, NE.terms[0]) && Skipped(st2, NE.terms[1]);
    assert NullTests(st2, NE.terms[1..]) == NullTests(st2, NE.terms[1..][1..]) == [];
    assert NullTests(st2, NE.terms) == [IsNull(Column(0, 1, 1))];
    assert MutateCompare(st1, NE).0 == TESTED;
    assert Mutate(s, st.(positive := false), SUB).0 == Exists([2], TESTED);
  }

  lemma FirstBecomes(s: Script, st: Context)
    requires st.positive && !st.ready && st.toAdd == []
    requires Mutate(s, EnterJunction(s, st), Not(SUB)).0 == Not(Exists([2], TESTED))
    ensures Mutate(s, st, FIRST).0 == And([KEY, Not(Exists([2], TESTED))])
  {
    var st1 := EnterJunction(s, st);
    assert Mutate(s, st1, KEY) == (KEY, st1);
    PairMutated(s, st1, KEY, Not(SUB));
  }

  /** The lookup is right: the OR takes the second list, the AND the first. */
  lemma OwnLists(s: Script, known: seq<Attr>)
    requires s.listTrue == [[Attr(1, 1), Attr(1, 2)], []] && s.trueVars == [TOP, INNER]
    ensures EnterJunction(s, EnterJunction(s, Start(s, known))) ==
      Context(true, false, [], known + [Attr(1, 1), Attr(1, 2)], 2, TOP, 1)
  {
    assert known + [] == known;
  }

  lemma HookRewrites(s: Script, known: seq<Attr>)
    requires WellScoped(CAT, TOP, QUALS) && s == FirstPass(CAT, [1], QUALS)
    requires forall a :: a in known ==> a in CAT.notNull
    ensures var r := Mutate(s, Start(s, known), QUALS).0;
      r.Or? && |r.args| == 2 && r.args[0] == And([KEY, Not(Exists([2], TESTED))])
  {
    StoredLists(s);
    Scopes(s);
    OwnLists(s, known);
    var st := EnterJunction(s, Start(s, known));
    SubTested(s, EnterJunction(s, st));
    FirstBecomes(s, st);
    PairMutated(s, st, FIRST, LAST);
  }

  // ----- before and after -----

  lemma HookReturns(r: Cond)
    requires r.Or? && |r.args| == 2 && r.args[0] == And([KEY, Not(Exists([2], TESTED))])
    ensures Returns(OPS, DB, [1], r, [0])
  {
    var env: Env := [Picked(DB, [1], [0])];
    forall pick | Picks(DB, [2], pick) ensures Eval(OPS, DB, [Picked(DB, [2], pick)] + env, TESTED) != True {
      var full := [Picked(DB, [2], pick)] + env;
      assert pick[0] == 0;
      assert TermValue(full, Column(0, 1, 1)) == Val(5);
      assert TermValues(full, NE.terms)[1] == Null;
      assert Eval(OPS, DB, full, TESTED.args[0]) == False && Eval(OPS, DB, full, TESTED.args[1]) == Unknown;
    }
    assert Eval(OPS, DB, env, Exists([2], TESTED)) == False;
    assert TermValues(env, KEY.terms) == [Val(1), Val(1)] && Ints([Val(1), Val(1)]) == [1, 1];
    assert Eval(OPS, DB, env, KEY) == True;
    assert Eval(OPS, DB, env, Not(Exists([2], TESTED))) == True;
    assert Eval(OPS, DB, env, r.args[0]) == True;
  }

  lemma SubHolds(env: Env)
    requires env == [Picked(FILLED, [1], [0])]
    ensures Eval(OPS, FILLED, env, SUB) == True
  {
    var full: Env := [Picked(FILLED, [2], [0])] + env;
    assert TermValues(full, NE.terms) == [Val(5), Val(1)] && Ints([Val(5), Val(1)]) == [5, 1];
    assert Eval(OPS, FILLED, full, NE) == True;
  }

  lemma LastFails(env: Env)
    requires env == [Picked(FILLED, [1], [0])]
    ensures Eval(OPS, FILLED, env, LAST) == False
  {
    assert TermValues(env, LAST.terms) == [Val(1), Val(2)] && Ints([Val(1), Val(2)]) == [1, 2];
  }

  lemma QueryDoesNot()
    ensures !Returns(OPS, FILLED, [1], QUALS, [0])
  {
    var env: Env := [Picked(FILLED, [1], [0])];
    SubHolds(env);
    LastFails(env);
    assert Eval(OPS, FILLED, env, FIRST.args[1]) == False;
    assert Eval(OPS, FILLED, env, FIRST) != True;
    assert forall i :: 0 <= i < 2 ==> QUALS.args[i] == FIRST || QUALS.args[i] == LAST;
  }

  lemma FilledCompletes()
    ensures CompletesDb(DB, FILLED) && DbObeys(CAT, DB)
  {
    forall rel: nat ensures CompletesRows(Rows(DB, rel), Rows(FILLED, rel)) {}
    forall rel: nat, i | 0 <= i < |Rows(DB, rel)| ensures RowObeys(CAT.notNull, Columns(CAT, rel), Rows(DB, rel)[i]) {}
  }

  lemma InFragment()
    ensures Supported(CAT, true, TOP, QUALS) && Covered(CAT, true, TOP, QUALS) && NoNullTest(QUALS)
  {
    assert Supported(CAT, false, TOP, SUB) && Covered(CAT, false, TOP, SUB) && NoNullTest(SUB);
    assert Supported(CAT, true, TOP, FIRST.args[1]) && Covered(CAT, true, TOP, FIRST.args[1]) &&
      NoNullTest(FIRST.args[1]);
    assert Supported(CAT, true, TOP, FIRST) && Covered(CAT, true, TOP, FIRST) && NoNullTest(FIRST);
  }

  /** With the inferred lists, whose columns are all NOT NULL, every skipped test would be earned. */
  lemma InferredWouldDo()
    requires WellScoped(CAT, TOP, QUALS)
    ensures InferredEarned(CAT, {}, true, TOP, [], QUALS) && !Settled(CAT, TOP, true, QUALS)
  {
    Scoped();
    InferredLists();
    Nodes();
    PairNeeds(CAT, TOP, true, FIRST, LAST);
    assert QUALS.args[1..] == [LAST];
    assert !Ordered(CAT, TOP, true, QUALS.args);
    FirstWouldDo({} + Gained(CAT, TOP, true, QUALS), [] + Needed(CAT, TOP, true, QUALS));
    InferredPair(CAT, {} + Gained(CAT, TOP, true, QUALS), true, TOP, [] + Needed(CAT, TOP, true, QUALS), FIRST, LAST);
  }

  lemma FirstWouldDo(known: set<Attr>, skip: seq<Attr>)
    requires WellScoped(CAT, TOP, FIRST) && skip == [] && Needed(CAT, TOP, true, FIRST) == [Attr(1, 1)]
    ensures InferredEarned(CAT, known, true, TOP, skip, FIRST)
  {
    var more, skip2 := known + Gained(CAT, TOP, true, FIRST), skip + [Attr(1, 1)];
    Scoped();
    assert AttrOf(INNER, NE.terms[0]) == Attr(2, 1) && AttrOf(INNER, NE.terms[1]) == Attr(1, 2);
    assert InferredEarned(CAT, Entered(CAT, TOP, false, more, [2], NE), false, INNER, skip2, NE);
    assert InferredEarned(CAT, more, false, TOP, skip2, SUB);
    assert InferredEarned(CAT, more, true, TOP, skip2, Not(SUB));
    InferredPair(CAT, more, true, TOP, skip2, KEY, Not(SUB));
  }

  /**
   The lists are sound, every node finds its own, and with the lists as they were inferred the result
   would be certain; but the list of the AND has grown by r.y, whose test is skipped.
   */
  lemma GrownListIsNotCertain(known: seq<Attr>)
    requires forall a :: a in known ==> a in CAT.notNull
    ensures WellScoped(CAT, TOP, QUALS) && Supported(CAT, true, TOP, QUALS) && Covered(CAT, true, TOP, QUALS)
    ensures NoNullTest(QUALS) && Spine(QUALS)
    ensures InferredEarned(CAT, {}, true, TOP, [], QUALS) && !Settled(CAT, TOP, true, QUALS)
    ensures var s := FirstPass(CAT, [1], QUALS); !Certain(CAT, [1], QUALS, Mutate(s, Start(s, known), QUALS).0)
  {
    Scoped();
    Nodes();
    InFragment();
    InferredWouldDo();
    var s := FirstPass(CAT, [1], QUALS);
    HookRewrites(s, known);
    HookReturns(Mutate(s, Start(s, known), QUALS).0);
    QueryDoesNot();
    FilledCompletes();
  }
}
