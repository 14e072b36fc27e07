/**
 What splitting means: the pieces together say what the condition said, so NOT EXISTS over the
 condition is the conjunction of NOT EXISTS over the pieces, also through nested subqueries.
 */
module SplitMeaning {
  import opened Sql
  import opened SplitOptimize
  import opened SplitChoices

  /** The three-valued OR of the pieces is the condition. */
  lemma PiecesMean(ops: Operators, db: Database, env: Env, c: Cond, pieces: seq<Cond>)
    requires Fair(true, c) && multiset(pieces) == multiset(Choices(c))
    ensures Eval(ops, db, env, Or(pieces)) == Eval(ops, db, env, c)
  {
    ChoicesMean(ops, db, env, true, c);
    SameMembers(pieces, Choices(c));
    assert SomeTrue(ops, db, env, pieces) <==> SomeTrue(ops, db, env, Choices(c));
    OrRow(ops, db, env, pieces);
  }

  // ----- NOT EXISTS -----

  function NotExists(rels: seq<nat>, pieces: seq<Cond>): (r: seq<Cond>)
    ensures |r| == |pieces|
    ensures forall i :: 0 <= i < |pieces| ==> r[i] == Not(Exists(rels, pieces[i]))
  {
    seq(|pieces|, i requires 0 <= i < |pieces| => Not(Exists(rels, pieces[i])))
  }

  function Rejoin(rels: seq<nat>, pieces: seq<Cond>): Cond
    requires |pieces| > 0
  {
    if |pieces| > 1 then And(NotExists(rels, pieces)) else NotExists(rels, pieces)[0]
  }

  lemma RejoinMeans(ops: Operators, db: Database, env: Env, rels: seq<nat>, q: Cond, pieces: seq<Cond>)
    requires |pieces| > 0 && Fair(true, q) && multiset(pieces) == multiset(Choices(q))
    ensures Eval(ops, db, env, Rejoin(rels, pieces)) == Eval(ops, db, env, Not(Exists(rels, q)))
  {
    forall env': Env ensures Eval(ops, db, env', q) == True <==> SomeTrue(ops, db, env', pieces) {
      PiecesMean(ops, db, env', q, pieces);
      OrRow(ops, db, env', pieces);
    }
    NotExistsMeans(ops, db, env, rels, q, pieces);
  }

  lemma NotExistsMeans(ops: Operators, db: Database, env: Env, rels: seq<nat>, q: Cond, pieces: seq<Cond>)
    requires |pieces| > 0
    requires forall env': Env :: Eval(ops, db, env', q) == True <==> SomeTrue(ops, db, env', pieces)
    ensures Eval(ops, db, env, Rejoin(rels, pieces)) == Eval(ops, db, env, Not(Exists(rels, q)))
  {
    if Eval(ops, db, env, Exists(rels, q)) == True {
      var pick :| Picks(db, rels, pick) && Eval(ops, db, [Picked(db, rels, pick)] + env, q) == True;
      SomePick(ops, db, env, rels, pieces, pick);
      RejoinEval(ops, db, env, rels, pieces);
    } else {
      forall i | 0 <= i < |pieces| ensures Eval(ops, db, env, Exists(rels, pieces[i])) == False {
        NoPick(ops, db, env, rels, q, pieces, i);
      }
      RejoinEval(ops, db, env, rels, pieces);
    }
  }

  /** Whatever the condition, the rejoined one is never true where NOT EXISTS over the condition is not. */
  lemma RejoinNeverAdds(ops: Operators, db: Database, env: Env, rels: seq<nat>, q: Cond, pieces: seq<Cond>)
    requires |pieces| > 0 && NonEmptyOrs(q) && multiset(pieces) == multiset(Choices(q))
    ensures Eval(ops, db, env, Rejoin(rels, pieces)) == True ==> Eval(ops, db, env, Not(Exists(rels, q))) == True
  {
    if pick :| Picks(db, rels, pick) && Eval(ops, db, [Picked(db, rels, pick)] + env, q) == True {
      ChoicesBound(ops, db, [Picked(db, rels, pick)] + env, q);
      SameMembers(pieces, Choices(q));
      SomePick(ops, db, env, rels, pieces, pick);
      RejoinEval(ops, db, env, rels, pieces);
    }
  }

  /** The rejoined condition is false when the EXISTS of some piece is true, and true otherwise. */
  lemma RejoinEval(ops: Operators, db: Database, env: Env, rels: seq<nat>, pieces: seq<Cond>)
    requires |pieces| > 0
    ensures Eval(ops, db, env, Rejoin(rels, pieces)) ==
            if exists i :: 0 <= i < |pieces| && Eval(ops, db, env, Exists(rels, pieces[i])) == True then False else True
  {
    var nots := NotExists(rels, pieces);
    forall i | 0 <= i < |pieces|
      ensures Eval(ops, db, env, nots[i]) == if Eval(ops, db, env, Exists(rels, pieces[i])) == True then False else True
    {}
  }

  lemma SomePick(ops: Operators, db: Database, env: Env, rels: seq<nat>, pieces: seq<Cond>, pick: seq<nat>)
    requires Picks(db, rels, pick) && SomeTrue(ops, db, [Picked(db, rels, pick)] + env, pieces)
    ensures exists i :: 0 <= i < |pieces| && Eval(ops, db, env, Exists(rels, pieces[i])) == True
  {
    var p :| p in pieces && Eval(ops, db, [Picked(db, rels, pick)] + env, p) == True;
    var i :| 0 <= i < |pieces| && pieces[i] == p;
    assert Eval(ops, db, env, Exists(rels, p)) == True;
  }

  lemma NoPick(ops: Operators, db: Database, env: Env, rels: seq<nat>, q: Cond, pieces: seq<Cond>, i: nat)
    requires i < |pieces|
    requires forall env': Env :: Eval(ops, db, env', q) == True <==> SomeTrue(ops, db, env', pieces)
    requires Eval(ops, db, env, Exists(rels, q)) == False
    ensures Eval(ops, db, env, Exists(rels, pieces[i])) == False
  {
    forall pick | Picks(db, rels, pick) ensures Eval(ops, db, [Picked(db, rels, pick)] + env, pieces[i]) != True {
      assert Eval(ops, db, [Picked(db, rels, pick)] + env, q) != True;
      assert pieces[i] in pieces;
    }
  }

  method OptimizeSplit(rels: seq<nat>, quals: Cond) returns (r: Cond, ghost pieces: seq<Cond>)
    requires NonEmptyOrs(quals) && !quals.Or?
    ensures |pieces| > 0 && multiset(pieces) == multiset(Choices(quals)) && r == Rejoin(rels, pieces)
    ensures Fair(true, quals) ==> forall ops: Operators, db: Database, env: Env ::
      Eval(ops, db, env, r) == Eval(ops, db, env, Not(Exists(rels, quals)))
  {
    var result := TrueSplit(quals);
    pieces := result;
    ChoicesCount(quals);
    CountPositive(quals);
    assert |multiset(pieces)| == |multiset(Choices(quals))|;
    var nexits := [];
    for i := 0 to |result|
      invariant |nexits| == i && forall k :: 0 <= k < i ==> nexits[k] == Not(Exists(rels, result[k]))
    {
      nexits := nexits + [Not(Exists(rels, result[i]))];
    }
    assert nexits == NotExists(rels, result);
    r := if |nexits| > 1 then And(nexits) else nexits[0];
    if Fair(true, quals) {
      forall ops: Operators, db: Database, env: Env
        ensures Eval(ops, db, env, r) == Eval(ops, db, env, Not(Exists(rels, quals)))
      {
        RejoinMeans(ops, db, env, rels, quals, result);
      }
    }
  }

  // ----- every NOT EXISTS that the walk reaches -----

  /** What splitting needs of every subquery under a NOT EXISTS to end. */
  predicate DeepEnds(c: Cond) {
    match c
    case Not(a) => if a.Exists? then DeepEnds(a.quals) && NonEmptyOrs(a.quals) && !a.quals.Or? else DeepEnds(a)
    case And(cs) => forall i :: 0 <= i < |cs| ==> DeepEnds(cs[i])
    case Or(cs) => forall i :: 0 <= i < |cs| ==> DeepEnds(cs[i])
    case _ => true
  }

  /** What it needs to keep their meaning. */
  predicate DeepFair(c: Cond) {
    match c
    case Not(a) => if a.Exists? then DeepFair(a.quals) && Fair(true, a.quals) else DeepFair(a)
    case And(cs) => forall i :: 0 <= i < |cs| ==> DeepFair(cs[i])
    case Or(cs) => forall i :: 0 <= i < |cs| ==> DeepFair(cs[i])
    case _ => true
  }

  /** r is c with every NOT EXISTS split, innermost first. */
  ghost predicate DeepSplit(c: Cond, r: Cond)
    decreases c
  {
    match c
    case Not(a) =>
      if a.Exists? then
        exists q, pieces: seq<Cond> ::
          DeepSplit(a.quals, q) && |pieces| > 0 && multiset(pieces) == multiset(Choices(q)) &&
            r == Rejoin(a.rels, pieces)
      else r.Not? && DeepSplit(a, r.arg)
    case And(cs) => r.And? && |r.args| == |cs| && forall i :: 0 <= i < |cs| ==> DeepSplit(cs[i], r.args[i])
    case Or(cs) => r.Or? && |r.args| == |cs| && forall i :: 0 <= i < |cs| ==> DeepSplit(cs[i], r.args[i])
    case _ => r == c
  }

  ghost predicate DeepKept(c: Cond, r: Cond) {
    && (r.Or? <==> c.Or?)
    && (HasOr(r) <==> HasOr(c))
    && (NonEmptyOrs(c) ==> NonEmptyOrs(r))
    && (forall positive :: Fair(positive, c) ==> Fair(positive, r))
    && (Plain(c) ==> Plain(r))
  }

  lemma RejoinPlain(rels: seq<nat>, pieces: seq<Cond>)
    requires |pieces| > 0
    ensures var r := Rejoin(rels, pieces); !r.Or? && !HasOr(r) && NonEmptyOrs(r) && Plain(r) && forall positive ::
      Fair(positive, r)
  {
    var nots := NotExists(rels, pieces);
    forall i | 0 <= i < |nots|
      ensures !HasOr(nots[i]) && NonEmptyOrs(nots[i]) && Plain(nots[i]) && forall positive :: Fair(positive, nots[i])
    {
      assert forall positive :: Fair(positive, Exists(rels, pieces[i]));
    }
  }

  lemma {:induction false} DeepKeepsOrs(c: Cond, r: Cond)
    requires DeepSplit(c, r)
    ensures DeepKept(c, r)
    decreases c
  {
    match c
    case Not(a) =>
      if a.Exists? {
        var q, pieces: seq<Cond> :|
          DeepSplit(a.quals, q) && |pieces| > 0 && multiset(pieces) == multiset(Choices(q)) &&
            r == Rejoin(a.rels, pieces);
        RejoinPlain(a.rels, pieces);
      } else {
        DeepKeepsOrs(a, r.arg);
        assert (Plain(c) <==> !HasOr(a)) && (Plain(r) <==> !HasOr(r.arg));
      }
    case And(cs) => DeepKeepsOrsArgs(c, cs, r);
    case Or(cs) => DeepKeepsOrsArgs(c, cs, r);
    case _ =>
  }

  lemma {:induction false} DeepKeepsOrsArgs(c: Cond, cs: seq<Cond>, r: Cond)
    requires DeepSplit(c, r) && (c == And(cs) || c == Or(cs))
    ensures DeepKept(c, r)
    decreases c, 0
  {
    forall i | 0 <= i < |cs| ensures DeepKept(cs[i], r.args[i]) { DeepKeepsOrs(cs[i], r.args[i]); }
    assert Plain(c) ==> forall i :: 0 <= i < |cs| ==> Plain(r.args[i]);
  }

  method MutatorSplitDeep(c: Cond) returns (r: Cond)
    requires DeepEnds(c)
    ensures DeepSplit(c, r)
    decreases c
  {
    match c
    case Not(a) =>
      if a.Exists? {
        var q := MutatorSplitDeep(a.quals);
        DeepKeepsOrs(a.quals, q);
        ghost var pieces;
        r, pieces := OptimizeSplit(a.rels, q);
      } else {
        var x := MutatorSplitDeep(a);
        r := Not(x);
      }
    case And(cs) => var rs := SplitDeepArgs(cs); r := And(rs);
    case Or(cs) => var rs := SplitDeepArgs(cs); r := Or(rs);
    case _ => r := c;
  }

  method SplitDeepArgs(cs: seq<Cond>) returns (rs: seq<Cond>)
    requires forall i :: 0 <= i < |cs| ==> DeepEnds(cs[i])
    ensures |rs| == |cs| && forall i :: 0 <= i < |cs| ==> DeepSplit(cs[i], rs[i])
    decreases cs
  {
    rs := [];
    for k := 0 to |cs|
      invariant |rs| == k && forall i :: 0 <= i < k ==> DeepSplit(cs[i], rs[i])
    {
      var x := MutatorSplitDeep(cs[k]);
      rs := rs + [x];
    }
  }

  /** Splitting changes no truth value, at any depth. */
  lemma {:induction false} DeepSplitMeans(ops: Operators, db: Database, env: Env, c: Cond, r: Cond)
    requires DeepSplit(c, r) && DeepFair(c)
    ensures Eval(ops, db, env, r) == Eval(ops, db, env, c)
    decreases c
  {
    match c
    case Not(a) =>
      if a.Exists? { DeepNotExistsMeans(ops, db, env, a, r); } else { DeepSplitMeans(ops, db, env, a, r.arg); }
    case And(cs) => DeepArgsMean(ops, db, env, cs, r.args);
    case Or(cs) => DeepArgsMean(ops, db, env, cs, r.args);
    case _ =>
  }

  lemma {:induction false} DeepNotExistsMeans(ops: Operators, db: Database, env: Env, a: Cond, r: Cond)
    requires a.Exists? && DeepSplit(Not(a), r) && DeepFair(Not(a))
    ensures Eval(ops, db, env, r) == Eval(ops, db, env, Not(a))
    decreases a
  {
    var q, pieces: seq<Cond> :|
      DeepSplit(a.quals, q) && |pieces| > 0 && multiset(pieces) == multiset(Choices(q)) && r == Rejoin(a.rels, pieces);
    DeepKeepsOrs(a.quals, q);
    RejoinMeans(ops, db, env, a.rels, q, pieces);
    forall env': Env ensures Eval(ops, db, env', q) == Eval(ops, db, env', a.quals) {
      DeepSplitMeans(ops, db, env', a.quals, q);
    }
    SameExists(ops, db, env, a.rels, q, a.quals);
    assert Eval(ops, db, env, Not(Exists(a.rels, q))) == Eval(ops, db, env, Not(a));
  }

  lemma {:induction false} DeepArgsMean(ops: Operators, db: Database, env: Env, cs: seq<Cond>, rs: seq<Cond>)
    requires |rs| == |cs| && forall i :: 0 <= i < |cs| ==> DeepSplit(cs[i], rs[i]) && DeepFair(cs[i])
    ensures forall i :: 0 <= i < |cs| ==> Eval(ops, db, env, rs[i]) == Eval(ops, db, env, cs[i])
    decreases cs
  {
    forall i | 0 <= i < |cs| ensures Eval(ops, db, env, rs[i]) == Eval(ops, db, env, cs[i]) {
      DeepSplitMeans(ops, db, env, cs[i], rs[i]);
    }
  }

  lemma SameExists(ops: Operators, db: Database, env: Env, rels: seq<nat>, q: Cond, q': Cond)
    requires forall env': Env :: Eval(ops, db, env', q) == Eval(ops, db, env', q')
    ensures Eval(ops, db, env, Exists(rels, q)) == Eval(ops, db, env, Exists(rels, q'))
  {
  }

  /** No OR under a NOT, subqueries aside. */
  predicate Plain(c: Cond) {
    match c
    case Or(cs) => forall i :: 0 <= i < |cs| ==> Plain(cs[i])
    case And(cs) => forall i :: 0 <= i < |cs| ==> Plain(cs[i])
    case Not(a) => !HasOr(a)
    case _ => true
  }

  /** Of every subquery under a NOT EXISTS. */
  predicate DeepPlain(c: Cond) {
    match c
    case Not(a) => if a.Exists? then DeepPlain(a.quals) && Plain(a.quals) else DeepPlain(a)
    case And(cs) => forall i :: 0 <= i < |cs| ==> DeepPlain(cs[i])
    case Or(cs) => forall i :: 0 <= i < |cs| ==> DeepPlain(cs[i])
    case _ => true
  }

  /** Every NOT EXISTS reached, however deep, has an OR-free condition. */
  predicate Done(c: Cond) {
    match c
    case Not(a) => if a.Exists? then !HasOr(a.quals) && Done(a.quals) else Done(a)
    case And(cs) => forall i :: 0 <= i < |cs| ==> Done(cs[i])
    case Or(cs) => forall i :: 0 <= i < |cs| ==> Done(cs[i])
    case _ => true
  }

  lemma {:induction false} ChoicesDone(c: Cond, x: Cond)
    requires Done(c) && Plain(c) && x in Choices(c)
    ensures Done(x) && !HasOr(x)
    decreases c
  {
    match c
    case Or(cs) => ChoicesAnyDone(cs, x);
    case And(cs) =>
      var i :| 0 <= i < |ChoicesAll(cs)| && x == And(ChoicesAll(cs)[i]);
      ChoicesAllDone(cs, x.args);
    case Not(_) => ChoicesOrFree(c);
    case _ =>
  }

  lemma {:induction false} ChoicesAnyDone(cs: seq<Cond>, x: Cond)
    requires (forall i :: 0 <= i < |cs| ==> Done(cs[i]) && Plain(cs[i])) && x in ChoicesAny(cs)
    ensures Done(x) && !HasOr(x)
    decreases cs
  {
    if x in Choices(cs[0]) { ChoicesDone(cs[0], x); } else { ChoicesAnyDone(cs[1..], x); }
  }

  lemma {:induction false} ChoicesAllDone(cs: seq<Cond>, row: seq<Cond>)
    requires (forall i :: 0 <= i < |cs| ==> Done(cs[i]) && Plain(cs[i])) && row in ChoicesAll(cs)
    ensures forall x :: x in row ==> Done(x) && !HasOr(x)
    decreases cs
  {
    if cs != [] {
      ProductMembers(Choices(cs[0]), ChoicesAll(cs[1..]), row);
      ChoicesDone(cs[0], row[0]);
      ChoicesAllDone(cs[1..], row[1..]);
      assert row == [row[0]] + row[1..];
    }
  }

  /** Then every NOT EXISTS reached is left with an OR-free condition. */
  lemma {:induction false} DeepSplitDone(c: Cond, r: Cond)
    requires DeepSplit(c, r) && DeepPlain(c)
    ensures Done(r)
    decreases c
  {
    match c
    case Not(a) =>
      if a.Exists? {
        var q, pieces: seq<Cond> :|
          DeepSplit(a.quals, q) && |pieces| > 0 && multiset(pieces) == multiset(Choices(q)) &&
            r == Rejoin(a.rels, pieces);
        DeepSplitDone(a.quals, q);
        DeepKeepsOrs(a.quals, q);
        SameMembers(pieces, Choices(q));
        RejoinDone(a.rels, q, pieces);
      } else {
        DeepSplitDone(a, r.arg);
        if r.arg.Exists? { DeepFromExists(a, r.arg); }
      }
    case And(cs) => forall i | 0 <= i < |cs| ensures Done(r.args[i]) { DeepSplitDone(cs[i], r.args[i]); }
    case Or(cs) => forall i | 0 <= i < |cs| ensures Done(r.args[i]) { DeepSplitDone(cs[i], r.args[i]); }
    case _ =>
  }

  lemma RejoinDone(rels: seq<nat>, q: Cond, pieces: seq<Cond>)
    requires |pieces| > 0 && Done(q) && Plain(q) && forall x :: x in pieces ==> x in Choices(q)
    ensures Done(Rejoin(rels, pieces))
  {
    var nots := NotExists(rels, pieces);
    forall i | 0 <= i < |nots| ensures Done(nots[i]) {
      assert pieces[i] in pieces;
      ChoicesDone(q, pieces[i]);
    }
  }

  lemma DeepFromExists(a: Cond, r: Cond)
    requires DeepSplit(a, r) && r.Exists?
    ensures a.Exists?
  {
  }
}
