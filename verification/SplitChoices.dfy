/**
 What the pieces of a condition say together.  A piece takes one argument of every OR, so a
 condition lies between the AND and the OR of its pieces; it is their OR if its ORs stand under an
 even number of NOTs, and their AND if they stand under an odd number.
 */
module SplitChoices {
  import opened Sql
  import opened SplitOptimize

  /** Every OR stands under an even number of further NOTs (positive) or an odd number, subqueries aside. */
  predicate Fair(positive: bool, c: Cond)
    decreases c
  {
    match c
    case Or(cs) => positive && forall i :: 0 <= i < |cs| ==> Fair(positive, cs[i])
    case And(cs) => forall i :: 0 <= i < |cs| ==> Fair(positive, cs[i]) && (positive || NonEmptyOrs(cs[i]))
    case Not(a) => Fair(!positive, a)
    case _ => true
  }

  // ----- conditions and rows of conditions, by membership -----

  ghost predicate SomeTrue(ops: Operators, db: Database, env: Env, cs: seq<Cond>) {
    exists c :: c in cs && Eval(ops, db, env, c) == True
  }

  ghost predicate AllFalse(ops: Operators, db: Database, env: Env, cs: seq<Cond>) {
    forall c :: c in cs ==> Eval(ops, db, env, c) == False
  }

  ghost predicate RowTrue(ops: Operators, db: Database, env: Env, row: seq<Cond>) {
    forall c :: c in row ==> Eval(ops, db, env, c) == True
  }

  ghost predicate RowFalse(ops: Operators, db: Database, env: Env, row: seq<Cond>) {
    exists c :: c in row && Eval(ops, db, env, c) == False
  }

  lemma {:induction false} ProductMembers(heads: seq<Cond>, tails: seq<seq<Cond>>, row: seq<Cond>)
    ensures row in Product(heads, tails) <==> |row| > 0 && row[0] in heads && row[1..] in tails
  {
    if heads != [] {
      ProductMembers(heads[1..], tails, row);
      var front := Prepend(heads[0], tails);
      if row in front {
        var i :| 0 <= i < |front| && front[i] == row;
        assert row[1..] == tails[i];
      }
      if |row| > 0 && row[0] == heads[0] && row[1..] in tails {
        var i :| 0 <= i < |tails| && tails[i] == row[1..];
        assert front[i] == [heads[0]] + tails[i] == row;
      }
    }
  }

  lemma ConsRow(ops: Operators, db: Database, env: Env, c: Cond, row: seq<Cond>)
    ensures RowTrue(ops, db, env, [c] + row) <==> Eval(ops, db, env, c) == True && RowTrue(ops, db, env, row)
    ensures RowFalse(ops, db, env, [c] + row) <==> Eval(ops, db, env, c) == False || RowFalse(ops, db, env, row)
  {
    var all := [c] + row;
    assert all[0] == c;
    forall x | x in row ensures x in all { var k :| 0 <= k < |row| && row[k] == x; assert all[k + 1] == x; }
  }

  lemma JoinedRow(ops: Operators, db: Database, env: Env, heads: seq<Cond>, tails: seq<seq<Cond>>, c: Cond,
                  row: seq<Cond>)
    requires c in heads && row in tails
    ensures [c] + row in Product(heads, tails)
    ensures RowTrue(ops, db, env, [c] + row) <==> Eval(ops, db, env, c) == True && RowTrue(ops, db, env, row)
    ensures RowFalse(ops, db, env, [c] + row) <==> Eval(ops, db, env, c) == False || RowFalse(ops, db, env, row)
  {
    assert ([c] + row)[1..] == row;
    ProductMembers(heads, tails, [c] + row);
    ConsRow(ops, db, env, c, row);
  }

  lemma BrokenRow(ops: Operators, db: Database, env: Env, heads: seq<Cond>, tails: seq<seq<Cond>>, row: seq<Cond>)
    requires row in Product(heads, tails)
    ensures |row| > 0 && row[0] in heads && row[1..] in tails
    ensures RowTrue(ops, db, env, row) <==> Eval(ops, db, env, row[0]) == True && RowTrue(ops, db, env, row[1..])
    ensures RowFalse(ops, db, env, row) <==> Eval(ops, db, env, row[0]) == False || RowFalse(ops, db, env, row[1..])
  {
    ProductMembers(heads, tails, row);
    assert row == [row[0]] + row[1..];
    ConsRow(ops, db, env, row[0], row[1..]);
  }

  lemma ProductSomeTrue(ops: Operators, db: Database, env: Env, heads: seq<Cond>, tails: seq<seq<Cond>>)
    ensures (exists row :: row in Product(heads, tails) && RowTrue(ops, db, env, row)) <==>
            SomeTrue(ops, db, env, heads) && exists row :: row in tails && RowTrue(ops, db, env, row)
  {
    if row :| row in Product(heads, tails) && RowTrue(ops, db, env, row) { BrokenRow(ops, db, env, heads, tails, row); }
    if c, row :| c in heads && Eval(ops, db, env, c) == True && row in tails && RowTrue(ops, db, env, row) {
      JoinedRow(ops, db, env, heads, tails, c, row);
    }
  }

  lemma ProductAllFalse(ops: Operators, db: Database, env: Env, heads: seq<Cond>, tails: seq<seq<Cond>>)
    ensures (forall row :: row in Product(heads, tails) ==> RowFalse(ops, db, env, row)) <==>
            AllFalse(ops, db, env, heads) || forall row :: row in tails ==> RowFalse(ops, db, env, row)
  {
    if row :| row in Product(heads, tails) && !RowFalse(ops, db, env, row) {
      BrokenRow(ops, db, env, heads, tails, row);
    }
    if c, row :| c in heads && Eval(ops, db, env, c) != False && row in tails && !RowFalse(ops, db, env, row) {
      JoinedRow(ops, db, env, heads, tails, c, row);
    }
  }

  /** The same with some and all exchanged. */
  lemma ProductAllTrue(ops: Operators, db: Database, env: Env, heads: seq<Cond>, tails: seq<seq<Cond>>)
    requires heads != [] && tails != []
    ensures (forall row :: row in Product(heads, tails) ==> RowTrue(ops, db, env, row)) <==>
            RowTrue(ops, db, env, heads) && forall row :: row in tails ==> RowTrue(ops, db, env, row)
  {
    var rows := Product(heads, tails);
    assert heads[0] in heads && tails[0] in tails;
    if forall row :: row in rows ==> RowTrue(ops, db, env, row) {
      forall c | c in heads ensures Eval(ops, db, env, c) == True {
        JoinedRow(ops, db, env, heads, tails, c, tails[0]);
      }
      forall row | row in tails ensures RowTrue(ops, db, env, row) {
        JoinedRow(ops, db, env, heads, tails, heads[0], row);
      }
    } else {
      var row :| row in rows && !RowTrue(ops, db, env, row);
      BrokenRow(ops, db, env, heads, tails, row);
    }
  }

  lemma ProductSomeFalse(ops: Operators, db: Database, env: Env, heads: seq<Cond>, tails: seq<seq<Cond>>)
    requires heads != [] && tails != []
    ensures (exists row :: row in Product(heads, tails) && RowFalse(ops, db, env, row)) <==>
            RowFalse(ops, db, env, heads) || exists row :: row in tails && RowFalse(ops, db, env, row)
  {
    assert heads[0] in heads && tails[0] in tails;
    if row :| row in Product(heads, tails) && RowFalse(ops, db, env, row) {
      BrokenRow(ops, db, env, heads, tails, row);
    }
    if c :| c in heads && Eval(ops, db, env, c) == False { JoinedRow(ops, db, env, heads, tails, c, tails[0]); }
    if row :| row in tails && RowFalse(ops, db, env, row) { JoinedRow(ops, db, env, heads, tails, heads[0], row); }
  }

  lemma AndRow(ops: Operators, db: Database, env: Env, row: seq<Cond>)
    ensures Eval(ops, db, env, And(row)) == True <==> RowTrue(ops, db, env, row)
    ensures Eval(ops, db, env, And(row)) == False <==> RowFalse(ops, db, env, row)
  {
    if RowFalse(ops, db, env, row) {
      var c :| c in row && Eval(ops, db, env, c) == False;
      var i :| 0 <= i < |row| && row[i] == c;
    }
  }

  lemma OrRow(ops: Operators, db: Database, env: Env, row: seq<Cond>)
    ensures Eval(ops, db, env, Or(row)) == True <==> SomeTrue(ops, db, env, row)
    ensures Eval(ops, db, env, Or(row)) == False <==> AllFalse(ops, db, env, row)
  {
    if SomeTrue(ops, db, env, row) {
      var c :| c in row && Eval(ops, db, env, c) == True;
      var i :| 0 <= i < |row| && row[i] == c;
    }
  }

  lemma SameMembers(a: seq<Cond>, b: seq<Cond>)
    requires multiset(a) == multiset(b)
    ensures forall x :: x in a <==> x in b
  {
    forall x ensures x in a <==> x in b { assert x in a <==> x in multiset(a); assert x in b <==> x in multiset(b); }
  }

  lemma RowIsAnd(ops: Operators, db: Database, env: Env, cs: seq<Cond>)
    ensures forall row :: row in ChoicesAll(cs) <==> And(row) in Choices(And(cs))
    ensures forall x :: x in Choices(And(cs)) ==> x.And? && x.args in ChoicesAll(cs)
    ensures forall row {:trigger RowTrue(ops, db, env, row)} :: Eval(ops, db, env, And(row)) == True <==>
      RowTrue(ops, db, env, row)
    ensures forall row {:trigger RowFalse(ops, db, env, row)} :: Eval(ops, db, env, And(row)) == False <==>
      RowFalse(ops, db, env, row)
  {
    var rows := ChoicesAll(cs);
    forall row | row in rows ensures And(row) in Choices(And(cs)) {
      var i :| 0 <= i < |rows| && rows[i] == row;
      assert Choices(And(cs))[i] == And(row);
    }
    forall x | x in Choices(And(cs)) ensures x.And? && x.args in rows {
      var i :| 0 <= i < |rows| && Choices(And(cs))[i] == x;
    }
    forall row
      ensures Eval(ops, db, env, And(row)) == True <==> RowTrue(ops, db, env, row)
      ensures Eval(ops, db, env, And(row)) == False <==> RowFalse(ops, db, env, row)
    { AndRow(ops, db, env, row); }
  }

  lemma NegatedMembers(cs: seq<Cond>)
    ensures forall x :: x in cs <==> Not(x) in Negated(cs)
    ensures forall x :: x in Negated(cs) ==> x.Not? && x.arg in cs
  {
    var ns := Negated(cs);
    forall x | x in cs ensures Not(x) in ns { var i :| 0 <= i < |cs| && cs[i] == x; assert ns[i] == Not(x); }
    forall x | x in ns ensures x.Not? && x.arg in cs { var i :| 0 <= i < |cs| && ns[i] == x; }
  }

  lemma {:induction false} CountPositive(c: Cond)
    requires NonEmptyOrs(c)
    ensures Count(c) > 0
    decreases c
  {
    match c
    case Or(cs) => CountPositive(cs[0]);
    case And(cs) => TimesPositive(cs);
    case Not(a) => CountPositive(a);
    case _ =>
  }

  lemma {:induction false} TimesPositive(cs: seq<Cond>)
    requires forall i :: 0 <= i < |cs| ==> NonEmptyOrs(cs[i])
    ensures Times(cs) > 0
    decreases cs
  {
    if cs != [] { CountPositive(cs[0]); TimesPositive(cs[1..]); }
  }


  lemma ChoicesExist(c: Cond)
    requires NonEmptyOrs(c)
    ensures Choices(c) != []
  {
    ChoicesCount(c);
    CountPositive(c);
  }

  lemma RowsExist(cs: seq<Cond>)
    requires forall i :: 0 <= i < |cs| ==> NonEmptyOrs(cs[i])
    ensures ChoicesAll(cs) != []
  {
    ChoicesAllCount(cs);
    TimesPositive(cs);
  }

  // ----- the condition and its pieces -----

  /** v is the OR (positive) or the AND of the values of cs. */
  ghost predicate Says(ops: Operators, db: Database, env: Env, positive: bool, v: Truth, cs: seq<Cond>) {
    if positive then (v == True <==> SomeTrue(ops, db, env, cs)) && (v == False <==> AllFalse(ops, db, env, cs))
    else (v == True <==> RowTrue(ops, db, env, cs)) && (v == False <==> RowFalse(ops, db, env, cs))
  }

  /** A condition is the OR of its pieces at even parity and their AND at odd parity. */
  lemma {:induction false} ChoicesMean(ops: Operators, db: Database, env: Env, positive: bool, c: Cond)
    requires Fair(positive, c)
    ensures Says(ops, db, env, positive, Eval(ops, db, env, c), Choices(c))
    decreases c
  {
    match c
    case Or(cs) => AnyMeans(ops, db, env, cs);
    case And(cs) =>
      RowIsAnd(ops, db, env, cs);
      AndRow(ops, db, env, cs);
      if positive { AllMean(ops, db, env, cs); } else { EachMeans(ops, db, env, cs); }
    case Not(a) =>
      ChoicesMean(ops, db, env, !positive, a);
      NegatedMembers(Choices(a));
      NegatedSay(ops, db, env, positive, a);
    case _ => assert c in Choices(c);
  }

  lemma NegatedSay(ops: Operators, db: Database, env: Env, positive: bool, a: Cond)
    requires Says(ops, db, env, !positive, Eval(ops, db, env, a), Choices(a))
    ensures Says(ops, db, env, positive, Eval(ops, db, env, Not(a)), Choices(Not(a)))
  {
    NegatedSome(ops, db, env, Choices(a));
    NegatedAll(ops, db, env, Choices(a));
  }

  lemma NegatedSome(ops: Operators, db: Database, env: Env, cs: seq<Cond>)
    ensures SomeTrue(ops, db, env, Negated(cs)) <==> RowFalse(ops, db, env, cs)
    ensures RowFalse(ops, db, env, Negated(cs)) <==> SomeTrue(ops, db, env, cs)
  {
    NegatedMembers(cs);
    if x :| x in cs && Eval(ops, db, env, x) == False { assert Eval(ops, db, env, Not(x)) == True; }
    if x :| x in cs && Eval(ops, db, env, x) == True { assert Eval(ops, db, env, Not(x)) == False; }
    if x :| x in Negated(cs) && Eval(ops, db, env, x) == True {
      assert x == Not(x.arg) && Eval(ops, db, env, x.arg) == False;
    }
    if x :| x in Negated(cs) && Eval(ops, db, env, x) == False {
      assert x == Not(x.arg) && Eval(ops, db, env, x.arg) == True;
    }
  }

  lemma NegatedAll(ops: Operators, db: Database, env: Env, cs: seq<Cond>)
    ensures AllFalse(ops, db, env, Negated(cs)) <==> RowTrue(ops, db, env, cs)
    ensures RowTrue(ops, db, env, Negated(cs)) <==> AllFalse(ops, db, env, cs)
  {
    NegatedMembers(cs);
    if x :| x in cs && Eval(ops, db, env, x) != False { assert Eval(ops, db, env, Not(x)) != True; }
    if x :| x in cs && Eval(ops, db, env, x) != True { assert Eval(ops, db, env, Not(x)) != False; }
    if x :| x in Negated(cs) && Eval(ops, db, env, x) != True {
      assert x == Not(x.arg) && Eval(ops, db, env, x.arg) != False;
    }
    if x :| x in Negated(cs) && Eval(ops, db, env, x) != False {
      assert x == Not(x.arg) && Eval(ops, db, env, x.arg) != True;
    }
  }

  lemma {:induction false} AnyMeans(ops: Operators, db: Database, env: Env, cs: seq<Cond>)
    requires forall i :: 0 <= i < |cs| ==> Fair(true, cs[i])
    ensures (exists i :: 0 <= i < |cs| && Eval(ops, db, env, cs[i]) == True) <==> SomeTrue(ops, db, env, ChoicesAny(cs))
    ensures (forall i :: 0 <= i < |cs| ==> Eval(ops, db, env, cs[i]) == False) <==>
      AllFalse(ops, db, env, ChoicesAny(cs))
    decreases cs
  {
    if cs != [] {
      ChoicesMean(ops, db, env, true, cs[0]);
      AnyMeans(ops, db, env, cs[1..]);
      assert forall i :: 1 <= i < |cs| ==> cs[i] == cs[1..][i - 1];
      assert forall x :: x in ChoicesAny(cs) <==> x in Choices(cs[0]) || x in ChoicesAny(cs[1..]);
    }
  }

  lemma {:induction false} AllMean(ops: Operators, db: Database, env: Env, cs: seq<Cond>)
    requires forall i :: 0 <= i < |cs| ==> Fair(true, cs[i])
    ensures RowTrue(ops, db, env, cs) <==> exists row :: row in ChoicesAll(cs) && RowTrue(ops, db, env, row)
    ensures RowFalse(ops, db, env, cs) <==> forall row :: row in ChoicesAll(cs) ==> RowFalse(ops, db, env, row)
    decreases cs
  {
    if cs == [] {
      assert [] in ChoicesAll(cs);
    } else {
      ChoicesMean(ops, db, env, true, cs[0]);
      AllMean(ops, db, env, cs[1..]);
      ProductSomeTrue(ops, db, env, Choices(cs[0]), ChoicesAll(cs[1..]));
      ProductAllFalse(ops, db, env, Choices(cs[0]), ChoicesAll(cs[1..]));
      assert cs == [cs[0]] + cs[1..];
      ConsRow(ops, db, env, cs[0], cs[1..]);
    }
  }

  lemma {:induction false} EachMeans(ops: Operators, db: Database, env: Env, cs: seq<Cond>)
    requires forall i :: 0 <= i < |cs| ==> Fair(false, cs[i]) && NonEmptyOrs(cs[i])
    ensures RowTrue(ops, db, env, cs) <==> forall row :: row in ChoicesAll(cs) ==> RowTrue(ops, db, env, row)
    ensures RowFalse(ops, db, env, cs) <==> exists row :: row in ChoicesAll(cs) && RowFalse(ops, db, env, row)
    decreases cs
  {
    if cs != [] {
      ChoicesMean(ops, db, env, false, cs[0]);
      EachMeans(ops, db, env, cs[1..]);
      ChoicesExist(cs[0]);
      RowsExist(cs[1..]);
      ProductAllTrue(ops, db, env, Choices(cs[0]), ChoicesAll(cs[1..]));
      ProductSomeFalse(ops, db, env, Choices(cs[0]), ChoicesAll(cs[1..]));
      assert cs == [cs[0]] + cs[1..];
      ConsRow(ops, db, env, cs[0], cs[1..]);
    }
  }

  // ----- every condition lies between the AND and the OR of its pieces -----

  ghost predicate Between(ops: Operators, db: Database, env: Env, v: Truth, cs: seq<Cond>) {
    && (v == True ==> SomeTrue(ops, db, env, cs)) && (AllFalse(ops, db, env, cs) ==> v == False)
    && (RowTrue(ops, db, env, cs) ==> v == True) && (v == False ==> RowFalse(ops, db, env, cs))
  }

  lemma {:induction false} ChoicesBound(ops: Operators, db: Database, env: Env, c: Cond)
    requires NonEmptyOrs(c)
    ensures Between(ops, db, env, Eval(ops, db, env, c), Choices(c))
    decreases c
  {
    match c
    case Or(cs) => AnyBound(ops, db, env, cs);
    case And(cs) =>
      RowIsAnd(ops, db, env, cs);
      AndRow(ops, db, env, cs);
      AllBound(ops, db, env, cs);
    case Not(a) => ChoicesBound(ops, db, env, a); NegatedBound(ops, db, env, a);
    case _ => assert c in Choices(c);
  }

  lemma NegatedBound(ops: Operators, db: Database, env: Env, a: Cond)
    requires Between(ops, db, env, Eval(ops, db, env, a), Choices(a))
    ensures Between(ops, db, env, Eval(ops, db, env, Not(a)), Choices(Not(a)))
  {
    NegatedSome(ops, db, env, Choices(a));
    NegatedAll(ops, db, env, Choices(a));
  }

  lemma {:induction false} AnyBound(ops: Operators, db: Database, env: Env, cs: seq<Cond>)
    requires |cs| > 0 && forall i :: 0 <= i < |cs| ==> NonEmptyOrs(cs[i])
    ensures Between(ops, db, env, Eval(ops, db, env, Or(cs)), ChoicesAny(cs))
    decreases cs
  {
    ChoicesBound(ops, db, env, cs[0]);
    if |cs| == 1 {
      assert ChoicesAny(cs) == Choices(cs[0]) + [] == Choices(cs[0]);
    } else {
      AnyBound(ops, db, env, cs[1..]);
      OrCons(ops, db, env, cs);
      BetweenConcat(ops, db, env, Eval(ops, db, env, cs[0]), Eval(ops, db, env, Or(cs[1..])),
                    Eval(ops, db, env, Or(cs)),
                    Choices(cs[0]), ChoicesAny(cs[1..]));
    }
  }

  lemma OrCons(ops: Operators, db: Database, env: Env, cs: seq<Cond>)
    requires |cs| > 0
    ensures Eval(ops, db, env, Or(cs)) == True <==>
      Eval(ops, db, env, cs[0]) == True || Eval(ops, db, env, Or(cs[1..])) == True
    ensures Eval(ops, db, env, Or(cs)) == False <==>
      Eval(ops, db, env, cs[0]) == False && Eval(ops, db, env, Or(cs[1..])) == False
  {
    assert forall i :: 1 <= i < |cs| ==> cs[i] == cs[1..][i - 1];
  }

  lemma BetweenConcat(ops: Operators, db: Database, env: Env, v: Truth, w: Truth, both: Truth, a: seq<Cond>,
                      b: seq<Cond>)
    requires Between(ops, db, env, v, a) && Between(ops, db, env, w, b)
    requires (both == True <==> v == True || w == True) && (both == False <==> v == False && w == False)
    ensures Between(ops, db, env, both, a + b)
  {
    assert forall x :: x in a + b <==> x in a || x in b;
  }

  ghost predicate BetweenRows(ops: Operators, db: Database, env: Env, cs: seq<Cond>, rows: seq<seq<Cond>>) {
    && (RowTrue(ops, db, env, cs) ==> exists row :: row in rows && RowTrue(ops, db, env, row))
    && ((forall row :: row in rows ==> RowFalse(ops, db, env, row)) ==> RowFalse(ops, db, env, cs))
    && ((forall row :: row in rows ==> RowTrue(ops, db, env, row)) ==> RowTrue(ops, db, env, cs))
    && (RowFalse(ops, db, env, cs) ==> exists row :: row in rows && RowFalse(ops, db, env, row))
  }

  lemma ConsBound(ops: Operators, db: Database, env: Env, c: Cond, heads: seq<Cond>, cs: seq<Cond>,
                  tails: seq<seq<Cond>>)
    requires heads != [] && tails != []
    requires Between(ops, db, env, Eval(ops, db, env, c), heads) && BetweenRows(ops, db, env, cs, tails)
    ensures BetweenRows(ops, db, env, [c] + cs, Product(heads, tails))
  {
    ProductSomeTrue(ops, db, env, heads, tails);
    ProductAllFalse(ops, db, env, heads, tails);
    ProductAllTrue(ops, db, env, heads, tails);
    ProductSomeFalse(ops, db, env, heads, tails);
    ConsRow(ops, db, env, c, cs);
  }

  lemma {:induction false} AllBound(ops: Operators, db: Database, env: Env, cs: seq<Cond>)
    requires forall i :: 0 <= i < |cs| ==> NonEmptyOrs(cs[i])
    ensures BetweenRows(ops, db, env, cs, ChoicesAll(cs))
    decreases cs
  {
    if cs == [] {
      assert [] in ChoicesAll(cs);
    } else {
      ChoicesBound(ops, db, env, cs[0]);
      AllBound(ops, db, env, cs[1..]);
      ChoicesExist(cs[0]);
      RowsExist(cs[1..]);
      ConsBound(ops, db, env, cs[0], Choices(cs[0]), cs[1..], ChoicesAll(cs[1..]));
      assert cs == [cs[0]] + cs[1..];
    }
  }

  // ----- pieces under an odd number of NOTs -----

  ghost predicate AllSame(ops: Operators, db: Database, env: Env, cs: seq<Cond>) {
    forall x, y :: x in cs && y in cs ==> Eval(ops, db, env, x) == Eval(ops, db, env, y)
  }

  ghost predicate AddUp(ops: Operators, db: Database, env: Env, pieces: seq<Cond>, c: Cond) {
    Eval(ops, db, env, Or(pieces)) == Eval(ops, db, env, c)
  }

  function Nots(k: nat, a: Cond): Cond {
    if k == 0 then a else Not(Nots(k - 1, a))
  }

  lemma {:induction false} NotsFair(k: nat, positive: bool, a: Cond)
    requires Fair(positive, a)
    ensures Fair(if k % 2 == 0 then positive else !positive, Nots(k, a))
  {
    if k > 0 { NotsFair(k - 1, positive, a); }
  }

  lemma {:induction false} NotsChoices(ops: Operators, db: Database, env: Env, k: nat, a: Cond)
    ensures AllSame(ops, db, env, Choices(Nots(k, a))) <==> AllSame(ops, db, env, Choices(a))
    ensures (Choices(Nots(k, a)) == []) == (Choices(a) == [])
  {
    if k > 0 {
      NotsChoices(ops, db, env, k - 1, a);
      SameNegated(ops, db, env, Choices(Nots(k - 1, a)));
    }
  }

  lemma SameNegated(ops: Operators, db: Database, env: Env, cs: seq<Cond>)
    ensures AllSame(ops, db, env, Negated(cs)) <==> AllSame(ops, db, env, cs)
  {
    NegatedMembers(cs);
    if AllSame(ops, db, env, Negated(cs)) {
      forall x, y | x in cs && y in cs ensures Eval(ops, db, env, x) == Eval(ops, db, env, y) {
        assert Not(x) in Negated(cs) && Not(y) in Negated(cs);
        assert Eval(ops, db, env, Not(x)) == Eval(ops, db, env, Not(y));
      }
    } else {
      var x, y :| x in Negated(cs) && y in Negated(cs) && Eval(ops, db, env, x) != Eval(ops, db, env, y);
      assert x.arg in cs && y.arg in cs && x == Not(x.arg) && y == Not(y.arg);
    }
  }

  /** The OR and the AND of some conditions agree exactly if the conditions have one value. */
  lemma OrIsAndExactly(ops: Operators, db: Database, env: Env, cs: seq<Cond>, v: Truth)
    requires cs != [] && Says(ops, db, env, false, v, cs)
    ensures Says(ops, db, env, true, v, cs) <==> AllSame(ops, db, env, cs)
  {
    var x := cs[0];
    assert x in cs;
    if AllSame(ops, db, env, cs) {
      assert forall y :: y in cs ==> Eval(ops, db, env, y) == Eval(ops, db, env, x);
    }
  }

  /**
   Behind k NOTs, the OR of the pieces is the condition exactly if k is even or all pieces have one
   value, for every condition whose own ORs stand under an even number of NOTs.
   */
  lemma PiecesUnderNotsExactly(ops: Operators, db: Database, env: Env, k: nat, a: Cond, pieces: seq<Cond>)
    requires Fair(true, a) && NonEmptyOrs(a) && multiset(pieces) == multiset(Choices(Nots(k, a)))
    ensures AddUp(ops, db, env, pieces, Nots(k, a)) <==> k % 2 == 0 || AllSame(ops, db, env, Choices(a))
  {
    var c := Nots(k, a);
    NotsFair(k, true, a);
    ChoicesMean(ops, db, env, k % 2 == 0, c);
    NotsChoices(ops, db, env, k, a);
    ChoicesExist(a);
    SameMembers(pieces, Choices(c));
    SaysSame(ops, db, env, Eval(ops, db, env, c), pieces, Choices(c));
    OrRow(ops, db, env, pieces);
    if k % 2 == 1 { OrIsAndExactly(ops, db, env, Choices(c), Eval(ops, db, env, c)); }
  }

  lemma SaysSame(ops: Operators, db: Database, env: Env, v: Truth, a: seq<Cond>, b: seq<Cond>)
    requires forall x :: x in a <==> x in b
    ensures Says(ops, db, env, true, v, a) <==> Says(ops, db, env, true, v, b)
  {
  }

  lemma {:induction false} FlatChoices(cs: seq<Cond>)
    requires forall i :: 0 <= i < |cs| ==> !HasOr(cs[i])
    ensures ChoicesAny(cs) == cs
  {
    if cs != [] { ChoicesOrFree(cs[0]); FlatChoices(cs[1..]); }
  }

  /** NOT over an OR is split rightly on all data exactly if the arguments of the OR always agree. */
  lemma SplitUnderNotExactly(cs: seq<Cond>, pieces: seq<Cond>)
    requires |cs| > 0 && (forall i :: 0 <= i < |cs| ==> !HasOr(cs[i]) && Fair(true, cs[i]) && NonEmptyOrs(cs[i]))
    requires multiset(pieces) == multiset(Choices(Not(Or(cs))))
    ensures (forall ops: Operators, db: Database, env: Env :: AddUp(ops, db, env, pieces, Not(Or(cs)))) <==>
            (forall ops: Operators, db: Database, env: Env :: AllSame(ops, db, env, cs))
  {
    FlatChoices(cs);
    forall ops: Operators, db: Database, env: Env
      ensures AddUp(ops, db, env, pieces, Not(Or(cs))) <==> AllSame(ops, db, env, cs)
    {
      assert Nots(1, Or(cs)) == Not(Nots(0, Or(cs)));
      PiecesUnderNotsExactly(ops, db, env, 1, Or(cs), pieces);
    }
  }
}
