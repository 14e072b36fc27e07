/**
 The pre-order lookup of post-order lists, end to end: with two ANDs under an OR, the second AND
 takes the list of the first.
 */
module HookMispaired {
  import opened Sql
  import opened Completions
  import opened Mutator
  import opened TrueVar
  import opened Walker
  import opened SharedLists
  import opened SkipSound
  import opened Hook
  import opened HookLookup
  import opened HookSpine
  import opened HookPairs

  // r WHERE (r.a = 7 AND r.b = 2) OR (NOT EXISTS (t WHERE t.b <> r.a) AND r.b = 1), on r = {(NULL, 1)} and t = {(5)}.
  const CAT := Catalog(map[1 := 2, 2 := 1], {})
  const NE := Compare(518, [Column(0, 1, 1), Column(1, 1, 1)])
  const ONE := Compare(98, [Column(0, 1, 2), Literal(Val(1))])
  const SEVEN := Compare(98, [Column(0, 1, 1), Literal(Val(7))])
  const TWO := Compare(98, [Column(0, 1, 2), Literal(Val(2))])
  const SUB := Exists([2], NE)
  const GUARDED := And([Not(SUB), ONE])
  const PLAIN := And([SEVEN, TWO])
  const QUALS := Or([PLAIN, GUARDED])
  const TOP: Chain := [ScopeOf(CAT, [1])]
  const INNER: Chain := [ScopeOf(CAT, [2])] + TOP
  const TESTED := Or([IsNull(Column(0, 1, 1)), NE])
  const DB: Database := map[1 := [[Null, Val(1)]], 2 := [[Val(5)]]]
  const FILLED: Database := map[1 := [[Val(1), Val(1)]], 2 := [[Val(5)]]]
  const OPS: Operators := (op, vs) => |vs| == 2 && (op == 518 <==> vs[0] != vs[1])

  lemma Scoped()
    ensures WellScoped(CAT, TOP, SUB) && WellScoped(CAT, TOP, GUARDED) && WellScoped(CAT, TOP, PLAIN)
    ensures WellScoped(CAT, TOP, QUALS)
  {
    assert WellScoped(CAT, INNER, NE);
    assert WellScoped(CAT, TOP, SUB);
    assert WellScoped(CAT, TOP, GUARDED.args[0]);
    assert WellScoped(CAT, TOP, GUARDED) && WellScoped(CAT, TOP, PLAIN);
  }

  lemma AtomList(c: Cond, t: Term, v: Value)
    requires c.Compare? && c.terms == [t, Literal(v)] && t.Column? && InScope(TOP, t)
    ensures forall a :: a in Needed(CAT, TOP, true, c) <==> a == AttrOf(TOP, t)
  {
    assert c.terms[..1] == [t] && [t][..0] == [];
    assert ColumnsOf(TOP, [t]) == [AttrOf(TOP, t)];
    assert ColumnsOf(TOP, c.terms) == [AttrOf(TOP, t)];
    DedupMeans(ColumnsOf(TOP, c.terms));
  }

  lemma PairList(c: Cond, x: Cond, y: Cond, a: Attr)
    requires WellScoped(CAT, TOP, x) && WellScoped(CAT, TOP, y) && c == And([x, y])
    ensures a in Needed(CAT, TOP, true, c) <==> a in Needed(CAT, TOP, true, x) || a in Needed(CAT, TOP, true, y)
  {
    var ls := NeededArgs(CAT, TOP, true, c.args);
    assert Flatten(ls[1..][1..]) == [];
    assert Flatten(ls[1..]) == ls[1];
    DedupMeans(Flatten(ls));
  }

  /** The second AND needs r.a and r.b, the first r.b only. */
  lemma TwoLists()
    ensures WellScoped(CAT, TOP, GUARDED) && WellScoped(CAT, TOP, PLAIN)
    ensures Attr(1, 1) in Needed(CAT, TOP, true, PLAIN) && Attr(2, 1) !in Needed(CAT, TOP, true, PLAIN)
    ensures forall a :: a in Needed(CAT, TOP, true, GUARDED) <==> a == Attr(1, 2)
  {
    Scoped();
    AtomList(SEVEN, Column(0, 1, 1), Val(7));
    AtomList(TWO, Column(0, 1, 2), Val(2));
    AtomList(ONE, Column(0, 1, 2), Val(1));
    PairList(PLAIN, SEVEN, TWO, Attr(1, 1));
    PairList(PLAIN, SEVEN, TWO, Attr(2, 1));
    assert Needed(CAT, TOP, false, SUB) == Needed(CAT, INNER, false, NE) == [];
    forall a ensures a in Needed(CAT, TOP, true, GUARDED) <==> a == Attr(1, 2) { PairList(GUARDED, Not(SUB), ONE, a); }
  }

  /** An OR needs what both its arguments need. */
  lemma RootList(a: Attr)
    requires WellScoped(CAT, TOP, GUARDED) && WellScoped(CAT, TOP, QUALS) && a in Needed(CAT, TOP, true, QUALS)
    ensures a in Needed(CAT, TOP, true, GUARDED)
  {
    var ls := NeededArgs(CAT, TOP, true, QUALS.args);
    OccurringMeans(Flatten(ls), Flatten(ls), 2);
    forall i | 0 <= i < |ls| ensures Distinct(ls[i]) { NeededDistinct(CAT, TOP, true, QUALS.args[i]); }
    InterIsIntersection(ls, a);
    assert ls[1] == Needed(CAT, TOP, true, GUARDED);
  }

  lemma Nodes()
    ensures Junctions(GUARDED) == 1 && Junctions(PLAIN) == 1 && Junctions(QUALS) == 3
  {
    PairNodes(Not(SUB), ONE);
    PairNodes(SEVEN, TWO);
    PairNodes(PLAIN, GUARDED);
    assert Junctions(SUB) == 0 && Junctions(Not(SUB)) == 0;
  }

  lemma Scopes()
    ensures Chains(CAT, TOP, QUALS) == [INNER]
  {
    PairChains(CAT, TOP, Not(SUB), ONE);
    PairChains(CAT, TOP, SEVEN, TWO);
    PairChains(CAT, TOP, PLAIN, GUARDED);
    assert Chains(CAT, INNER, NE) == [] && Chains(CAT, TOP, SUB) == [INNER] && Chains(CAT, TOP, Not(SUB)) == [INNER];
    assert Chains(CAT, TOP, GUARDED) == [INNER] && Chains(CAT, TOP, PLAIN) == [];
  }

  lemma PassesMake(s: Script)
    requires WellScoped(CAT, TOP, GUARDED) && WellScoped(CAT, TOP, PLAIN) && WellScoped(CAT, TOP, QUALS)
    requires s == FirstPass(CAT, [1], QUALS)
    ensures s.trueVars == [TOP, INNER] && |s.listTrue| == |s.listFalse| == 3
    ensures s.listTrue[0] == Grown(Needed(CAT, TOP, true, PLAIN), Needed(CAT, TOP, true, GUARDED))
    ensures s.listTrue[2] == Needed(CAT, TOP, true, QUALS)
  {
    Nodes();
    Scopes();
    SharedCount(CAT, TOP, false, QUALS, [], []);
    NodeShared(CAT, TOP, true, QUALS, [PLAIN, GUARDED]);
    TwoStored(PLAIN, GUARDED);
  }

  lemma TwoStored(x: Cond, y: Cond)
    requires WellScoped(CAT, TOP, x) && WellScoped(CAT, TOP, y)
    requires Junctions(x) == 1 && x.And? && Junctions(y) == 1 && y.And?
    ensures SharedOf(CAT, TOP, true, [x, y]) ==
      [Grown(Needed(CAT, TOP, true, x), Needed(CAT, TOP, true, y)), Grown(Needed(CAT, TOP, true, y), [])]
  {
    PairShared(CAT, TOP, true, x, y);
    OneShared(CAT, TOP, true, x, Needed(CAT, TOP, true, y), Needed(CAT, TOP, false, y));
    OneShared(CAT, TOP, true, y, [], []);
  }

  /** With r.a on the list, only t.b is tested. */
  lemma SubTested(s: Script, st: Context)
    requires st.positive && !st.ready && st.toAdd == [] && st.atQuery == 1 && s.trueVars == [TOP, INNER]
    requires Attr(1, 1) in st.notNull && Attr(2, 1) !in st.notNull
    ensures Mutate(s, st, Not(SUB)).0 == Not(Exists([2], TESTED))
  {
    var st1 := EnterQuery(s, st.(positive := false));
    var st2 := st1.(ready := true);
    assert st1.trueVar == INNER;
    assert !Skipped(st2, NE.terms[0]) && Skipped(st2, NE.terms[1]);
    assert NullTests(st2, NE.terms[1..]) == NullTests(st2, NE.terms[1..][1..]) == [];
    assert NullTests(st2, NE.terms) == [IsNull(Column(0, 1, 1))];
    assert MutateCompare(st1, NE).0 == TESTED;
    assert Mutate(s, st.(positive := false), SUB).0 == Exists([2], TESTED);
  }

  lemma ListsCombined(l: seq<Attr>)
    requires WellScoped(CAT, TOP, GUARDED) && WellScoped(CAT, TOP, PLAIN) && WellScoped(CAT, TOP, QUALS)
    requires l == Needed(CAT, TOP, true, QUALS) + Grown(Needed(CAT, TOP, true, PLAIN), Needed(CAT, TOP, true, GUARDED))
    ensures Attr(1, 1) in l && Attr(2, 1) !in l
  {
    TwoLists();
    if Attr(2, 1) in Needed(CAT, TOP, true, QUALS) { RootList(Attr(2, 1)); }
  }

  lemma PlainKept(s: Script, st: Context)
    requires st.positive && !st.ready && st.toAdd == []
    ensures Mutate(s, st, PLAIN) == (PLAIN, st.(at := st.at + 1))
  {
    var st1 := EnterJunction(s, st);
    assert Mutate(s, st1, SEVEN) == (SEVEN, st1) && Mutate(s, st1, TWO) == (TWO, st1);
    PairMutated(s, st1, SEVEN, TWO);
  }

  /** The second AND is the third node; it takes the third list from the end. */
  lemma ThirdTakesThird(s: Script, a: seq<Attr>, c: seq<Attr>)
    requires |s.listTrue| == 3 && s.listTrue[0] == a && s.listTrue[2] == c && s.trueVars == [TOP, INNER]
    ensures EnterJunction(s, Start(s, [])) == Context(true, false, [], c, 1, TOP, 1)
    ensures EnterJunction(s, EnterJunction(s, Start(s, [])).(at := 2)) == Context(true, false, [], c + a, 3, TOP, 1)
  {
    assert [] + c == c;
  }

  lemma GuardedBecomes(s: Script, st: Context)
    requires st.positive && Mutate(s, EnterJunction(s, st), Not(SUB)).0 == Not(Exists([2], TESTED))
    ensures Mutate(s, st, GUARDED).0 == And([Not(Exists([2], TESTED)), ONE])
  {
    PairMutated(s, EnterJunction(s, st), Not(SUB), ONE);
  }

  /** So the second AND skips the test on r.a. */
  lemma GuardedSkips(s: Script, st: Context)
    requires WellScoped(CAT, TOP, QUALS) && s == FirstPass(CAT, [1], QUALS) && st == EnterJunction(s, Start(s, []))
    ensures st.positive && !st.ready && st.toAdd == [] && st.at == 1
    ensures Mutate(s, st.(at := 2), GUARDED).0 == And([Not(Exists([2], TESTED)), ONE])
  {
    Scoped();
    PassesMake(s);
    ThirdTakesThird(s, s.listTrue[0], s.listTrue[2]);
    ListsCombined(s.listTrue[2] + s.listTrue[0]);
    SubTested(s, EnterJunction(s, st.(at := 2)));
    GuardedBecomes(s, st.(at := 2));
  }

  lemma HookRewrites(s: Script)
    requires WellScoped(CAT, TOP, QUALS) && s == FirstPass(CAT, [1], QUALS)
    ensures var r := Mutate(s, Start(s, []), QUALS).0;
      r.Or? && |r.args| == 2 && r.args[1] == And([Not(Exists([2], TESTED)), ONE])
  {
    var st := EnterJunction(s, Start(s, []));
    GuardedSkips(s, st);
    PlainKept(s, st);
    OrMutated(s, Start(s, []), PLAIN, GUARDED);
  }

  lemma OrMutated(s: Script, st: Context, x: Cond, y: Cond)
    ensures var (r, st1) := Mutate(s, EnterJunction(s, st), x);
      Mutate(s, st, Or([x, y])).0 == Or([r, Mutate(s, st1, y).0])
  {
    PairMutated(s, EnterJunction(s, st), x, y);
  }

  lemma HookReturns(r: Cond)
    requires r.Or? && |r.args| == 2 && r.args[1] == And([Not(Exists([2], TESTED)), ONE])
    ensures Returns(OPS, DB, [1], r, [0])
  {
    var env: Env := [Picked(DB, [1], [0])];
    forall pick | Picks(DB, [2], pick) ensures Eval(OPS, DB, [Picked(DB, [2], pick)] + env, TESTED) != True {
      var full := [Picked(DB, [2], pick)] + env;
      assert pick[0] == 0;
      assert TermValue(full, Column(0, 1, 1)) == Val(5);
      assert TermValues(full, NE.terms)[1] == Null;
      assert Eval(OPS, DB, full, TESTED.args[0]) == False && Eval(OPS, DB, full, TESTED.args[1]) == Unknown;
    }
    assert Eval(OPS, DB, env, Exists([2], TESTED)) == False;
    assert TermValues(env, ONE.terms) == [Val(1), Val(1)] && Ints([Val(1), Val(1)]) == [1, 1];
    assert Eval(OPS, DB, env, ONE) == True;
    assert Eval(OPS, DB, env, Not(Exists([2], TESTED))) == True;
    assert Eval(OPS, DB, env, r.args[1]) == True;
  }

  lemma SubHolds(env: Env)
    requires env == [Picked(FILLED, [1], [0])]
    ensures Eval(OPS, FILLED, env, SUB) == True
  {
    var full: Env := [Picked(FILLED, [2], [0])] + env;
    assert TermValues(full, NE.terms) == [Val(5), Val(1)] && Ints([Val(5), Val(1)]) == [5, 1];
    assert Eval(OPS, FILLED, full, NE) == True;
  }

  lemma NotSeven(env: Env)
    requires env == [Picked(FILLED, [1], [0])]
    ensures Eval(OPS, FILLED, env, SEVEN) == False
  {
    assert TermValues(env, SEVEN.terms) == [Val(1), Val(7)] && Ints([Val(1), Val(7)]) == [1, 7];
  }

  lemma QueryDoesNot()
    ensures !Returns(OPS, FILLED, [1], QUALS, [0])
  {
    var env: Env := [Picked(FILLED, [1], [0])];
    SubHolds(env);
    PairEval(FILLED, env, Not(SUB), ONE);
    NotSeven(env);
    PairEval(FILLED, env, SEVEN, TWO);
    NeitherEval(FILLED, env, PLAIN, GUARDED);
  }

  lemma PairEval(db: Database, env: Env, x: Cond, y: Cond)
    requires Eval(OPS, db, env, x) == False
    ensures Eval(OPS, db, env, And([x, y])) != True
  {
    assert [x, y][0] == x;
  }

  lemma NeitherEval(db: Database, env: Env, x: Cond, y: Cond)
    requires Eval(OPS, db, env, x) != True && Eval(OPS, db, env, y) != True
    ensures Eval(OPS, db, env, Or([x, y])) != True
  {
    assert forall i :: 0 <= i < 2 ==> [x, y][i] == x || [x, y][i] == y;
  }

  lemma FilledCompletes()
    ensures CompletesDb(DB, FILLED) && DbObeys(CAT, DB)
  {
    forall rel: nat ensures CompletesRows(Rows(DB, rel), Rows(FILLED, rel)) {}
    forall rel: nat, i | 0 <= i < |Rows(DB, rel)| ensures RowObeys(CAT.notNull, Columns(CAT, rel), Rows(DB, rel)[i]) {}
  }

  lemma InFragment()
    ensures Supported(CAT, true, TOP, QUALS) && Covered(CAT, true, TOP, QUALS) && NoNullTest(QUALS) && !Spine(QUALS)
  {
    Nodes();
    assert Supported(CAT, false, TOP, SUB) && Covered(CAT, false, TOP, SUB) && NoNullTest(SUB);
    assert Supported(CAT, true, TOP, Not(SUB)) && Covered(CAT, true, TOP, Not(SUB)) && NoNullTest(Not(SUB));
    assert Supported(CAT, true, TOP, GUARDED) && Covered(CAT, true, TOP, GUARDED) && NoNullTest(GUARDED);
    assert Supported(CAT, true, TOP, PLAIN) && Covered(CAT, true, TOP, PLAIN) && NoNullTest(PLAIN);
    assert Junctions(QUALS.args[0]) > 0 && Junctions(QUALS.args[1]) > 0;
  }

  /** With the stored lists of the nodes themselves, every skipped test would be earned. */
  lemma OwnListsWouldDo()
    requires WellScoped(CAT, TOP, QUALS)
    ensures OwnEarned(CAT, {}, true, TOP, [], [], QUALS)
  {
    Scoped();
    TwoLists();
    var skip := [] + Grown(Needed(CAT, TOP, true, QUALS), []);
    forall a | a in skip ensures a == Attr(1, 2) { RootList(a); }
    var known := {} + Gained(CAT, TOP, true, QUALS);
    GuardedWouldDo(known, skip);
    assert ExistsFree(PLAIN);
    OwnPair(CAT, known, true, TOP, skip, PLAIN, GUARDED);
  }

  lemma GuardedWouldDo(known: set<Attr>, skip: seq<Attr>)
    requires WellScoped(CAT, TOP, GUARDED)
    requires forall a :: a in skip + Needed(CAT, TOP, true, GUARDED) ==> a == Attr(1, 2)
    ensures OwnEarned(CAT, known, true, TOP, skip, [], GUARDED)
  {
    var own := Grown(Needed(CAT, TOP, true, GUARDED), []);
    var more, skip2, after := known + Gained(CAT, TOP, true, GUARDED), skip + own, Needed(CAT, TOP, true, ONE);
    Scoped();
    forall a | a in skip2 ensures a == Attr(1, 2) {
      assert a in skip || a in Needed(CAT, TOP, true, GUARDED);
      assert a in skip + Needed(CAT, TOP, true, GUARDED);
    }
    assert AttrOf(INNER, NE.terms[0]) == Attr(2, 1) && AttrOf(INNER, NE.terms[1]) == Attr(1, 1);
    assert OwnEarned(CAT, Entered(CAT, TOP, false, more, [2], NE), false, INNER, skip2, after, NE);
    assert OwnEarned(CAT, more, false, TOP, skip2, after, SUB);
    assert OwnEarned(CAT, more, true, TOP, skip2, after, Not(SUB));
    assert OwnEarned(CAT, more, true, TOP, skip2, [], ONE);
    OwnPair(CAT, more, true, TOP, skip2, Not(SUB), ONE);
  }

  /** The test on r.a is skipped because the other AND needs r.a. */
  lemma MispairedListIsNotCertain()
    ensures WellScoped(CAT, TOP, QUALS) && Supported(CAT, true, TOP, QUALS) && Covered(CAT, true, TOP, QUALS)
    ensures NoNullTest(QUALS)
    ensures !Spine(QUALS) && OwnEarned(CAT, {}, true, TOP, [], [], QUALS)
    ensures var s := FirstPass(CAT, [1], QUALS); !Certain(CAT, [1], QUALS, Mutate(s, Start(s, []), QUALS).0)
  {
    Scoped();
    var s := FirstPass(CAT, [1], QUALS);
    HookRewrites(s);
    HookReturns(Mutate(s, Start(s, []), QUALS).0);
    QueryDoesNot();
    FilledCompletes();
    InFragment();
    OwnListsWouldDo();
  }
}
