/** Splitting after the mutator: what the two passes guarantee together, and where they do not end. */
module SplitHook {
  import opened Sql
  import opened Completions
  import opened Mutator
  import opened Hook
  import opened SplitOptimize
  import opened SplitChoices
  import opened SplitMeaning

  /** Rewritten and split, a query that the hook is fit for still returns certain answers only. */
  lemma SplitQueryIsCertain(cat: Catalog, known: seq<Attr>, rels: seq<nat>, quals: Cond, r: Cond)
    requires Fit(cat, rels, quals) && forall a :: a in known ==> a in cat.notNull
    requires var s := FirstPass(cat, rels, quals);
      var m := Mutate(s, Start(s, known), quals).0;
      DeepFair(m) && DeepSplit(m, r)
    ensures Certain(cat, rels, quals, r)
  {
    var s := FirstPass(cat, rels, quals);
    var m := Mutate(s, Start(s, known), quals).0;
    FitIsCertain(cat, rels, quals, known);
    forall ops: Operators, db: Database, db': Database, pick: seq<nat>
      | CompletesDb(db, db') && DbObeys(cat, db) && Returns(ops, db, rels, r, pick)
      ensures Returns(ops, db', rels, quals, pick)
    {
      DeepSplitMeans(ops, db, [Picked(db, rels, pick)], m, r);
      assert Returns(ops, db, rels, m, pick);
    }
  }

  /**
   A subquery under NOT EXISTS whose whole WHERE clause is one listed comparison with a column that
   may be null becomes an OR, and an OR at the root is what the worklist never finishes.
   */
  lemma WeakenedComparisonNeverSplits(s: Script, st: Mutator.Context, op: nat, ts: seq<Term>, t: Term)
    requires !st.positive && op in LISTED && t in ts && t.Column? && !Skipped(st, t)
    requires forall i :: 0 <= i < |st.toAdd| ==> st.toAdd[i].IsNull?
    ensures var r := Mutate(s, st, Compare(op, ts)).0; r.Or? && NonEmptyOrs(r) && !Terminates(r)
  {
    var st1 := st.(ready := true);
    NullTestsAll(st1, ts);
    var r := Mutate(s, st, Compare(op, ts)).0;
    assert IsNull(t) in NullTests(st1, ts);
    assert r == Or(st.toAdd + NullTests(st1, ts) + [Compare(op, ts)]);
    TerminatesExactly(r);
  }

  const YES := IsNull(Literal(Null))
  const NO := IsNull(Literal(Val(0)))

  /** Under a NOT the pieces do not add up: NOT (yes OR no) is false, but one of its pieces is true. */
  lemma SplitUnderNotChangesMeaning(ops: Operators, db: Database, env: Env, pieces: seq<Cond>)
    requires multiset(pieces) == multiset(Choices(Not(Or([YES, NO]))))
    ensures !Fair(true, Not(Or([YES, NO]))) && Terminates(Not(Or([YES, NO])))
    ensures Eval(ops, db, env, Not(Or([YES, NO]))) == False
    ensures Eval(ops, db, env, Or(pieces)) == True
  {
    var c := Or([YES, NO]);
    assert c.args[0] == YES && Eval(ops, db, env, c.args[0]) == True;
    assert NonEmptyOrs(c);
    TerminatesExactly(Not(c));
    assert ChoicesAny(c.args[1..][1..]) == [];
    assert ChoicesAny(c.args[1..]) == [NO];
    assert Choices(c.args[0]) == [YES];
    assert ChoicesAny(c.args) == [YES] + [NO];
    assert Choices(c) == [YES, NO];
    assert Choices(Not(c))[1] == Not(NO);
    SameMembers(pieces, Choices(Not(c)));
    assert Not(NO) in pieces;
    assert Eval(ops, db, env, NO) == False;
    OrRow(ops, db, env, pieces);
  }
}
