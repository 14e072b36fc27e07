/**
 Certain answers with tests skipped in context: a comparison under a condition that can only be true
 if a column has a value need not test that column.
 */
module SkipSound {
  import opened Sql
  import opened Completions
  import opened Mutator
  import opened Walker
  import opened SkipLists

  predicate ExistsFree(c: Cond) {
    match c
    case And(cs) => forall i :: 0 <= i < |cs| ==> ExistsFree(cs[i])
    case Or(cs) => forall i :: 0 <= i < |cs| ==> ExistsFree(cs[i])
    case Not(a) => ExistsFree(a)
    case Exists(_, _) => false
    case _ => true
  }

  // ----- what is known where -----

  /** The to-be-true list of c is sound. */
  ghost predicate Trusted(cat: Catalog, chain: Chain, c: Cond) {
    WellScoped(cat, chain, c) && OnceOnly(chain) && OneEach(cat, chain, c) && Grounded(cat, chain, true, c)
  }

  /** The attributes on the to-be-true list of c, if that is sound and c has to be true. */
  ghost function Gained(cat: Catalog, chain: Chain, positive: bool, c: Cond): set<Attr> {
    if positive && Trusted(cat, chain, c) then set a | a in Needed(cat, chain, true, c) else {}
  }

  /** What is known outside a subquery about columns outside it, and what the subquery itself needs. */
  ghost function Entered(cat: Catalog, chain: Chain, positive: bool, known: set<Attr>, rels: seq<nat>, q: Cond)
    : set<Attr>
  {
    (set a | a in known && !InChain([ScopeOf(cat, rels)], a)) + Gained(cat, [ScopeOf(cat, rels)] + chain, positive, q)
  }

  function Knowing(cat: Catalog, known: set<Attr>): Catalog {
    cat.(notNull := cat.notNull + known)
  }

  /** r is c with a test for every column of a negative comparison that is not known to have a value there. */
  ghost predicate Backed(cat: Catalog, known: set<Attr>, positive: bool, chain: Chain, c: Cond, r: Cond)
    decreases c
  {
    (positive && ExistsFree(c) && Shaped(true, c, r)) ||
    match c
    case Compare(_, ts) => if positive then r == c else WeakAtom(Knowing(cat, known), chain, ts, c, r)
    case And(cs) =>
      r.And? && |r.args| == |cs| &&
      forall i :: 0 <= i < |cs| ==>
        Backed(cat, known + Gained(cat, chain, positive, c), positive, chain, cs[i], r.args[i])
    case Or(cs) =>
      r.Or? && |r.args| == |cs| &&
      forall i :: 0 <= i < |cs| ==>
        Backed(cat, known + Gained(cat, chain, positive, c), positive, chain, cs[i], r.args[i])
    case Not(a) => r.Not? && Backed(cat, known, !positive, chain, a, r.arg)
    case Exists(rels, q) =>
      r.Exists? && r.rels == rels &&
      Backed(cat, Entered(cat, chain, positive, known, rels, q), positive, [ScopeOf(cat, rels)] + chain, q, r.quals)
    case _ => r == c
  }

  lemma {:induction false} BackedShaped(cat: Catalog, known: set<Attr>, positive: bool, chain: Chain, c: Cond, r: Cond)
    requires Backed(cat, known, positive, chain, c, r)
    ensures Shaped(positive, c, r)
    decreases c
  {
    if positive && ExistsFree(c) && Shaped(true, c, r) {
    } else {
      var more := known + Gained(cat, chain, positive, c);
      match c
      case And(cs) =>
        forall i | 0 <= i < |cs| ensures Shaped(positive, cs[i], r.args[i]) {
          BackedShaped(cat, more, positive, chain, cs[i], r.args[i]);
        }
      case Or(cs) =>
        forall i | 0 <= i < |cs| ensures Shaped(positive, cs[i], r.args[i]) {
          BackedShaped(cat, more, positive, chain, cs[i], r.args[i]);
        }
      case Not(a) => BackedShaped(cat, known, !positive, chain, a, r.arg);
      case Exists(rels, q) =>
        BackedShaped(cat, Entered(cat, chain, positive, known, rels, q), positive, [ScopeOf(cat, rels)] + chain, q,
                     r.quals);
      case _ =>
    }
  }

  lemma {:induction false} ShapedTwoValued(cat: Catalog, chain: Chain, positive: bool, c: Cond, r: Cond)
    requires Shaped(positive, c, r) && TwoValued(cat, chain, c)
    ensures TwoValued(cat, chain, r)
    decreases c
  {
    match c
    case Compare(_, _) => if r != c { assert r.args[|r.args| - 1] == c; }
    case And(cs) =>
      forall i | 0 <= i < |cs| ensures TwoValued(cat, chain, r.args[i]) {
        ShapedTwoValued(cat, chain, positive, cs[i], r.args[i]);
      }
    case Or(cs) =>
      forall i | 0 <= i < |cs| ensures TwoValued(cat, chain, r.args[i]) {
        ShapedTwoValued(cat, chain, positive, cs[i], r.args[i]);
      }
    case Not(a) => ShapedTwoValued(cat, chain, !positive, a, r.arg);
    case _ =>
  }

  /** Without subqueries three-valued logic is certain by itself, whatever tests are there. */
  lemma {:induction false} PlainCertain(ops: Operators, db: Database, db': Database, env: Env, env': Env,
                                        positive: bool, c: Cond, r: Cond)
    requires Shaped(positive, c, r) && ExistsFree(c) && CompletesEnv(env, env')
    requires NoNullTest(c)
    ensures Eval(ops, db, env, r) == Wanted(positive) ==> Eval(ops, db', env', c) == Wanted(positive)
    decreases c
  {
    match c
    case Compare(op, ts) =>
      if r != c {
        assert r.args[|r.args| - 1] == c;
        assert Eval(ops, db, env, r) == False ==> Eval(ops, db, env, c) == False;
      }
      if NullFree(TermValues(env, ts)) {
        CompletedAtom(ops, env, env', op, ts);
        assert Eval(ops, db, env, c) == Eval(ops, db', env', c);
      }
    case And(cs) =>
      forall i | 0 <= i < |cs|
        ensures Eval(ops, db, env, r.args[i]) == Wanted(positive) ==> Eval(ops, db', env', cs[i]) == Wanted(positive)
      {
        PlainCertain(ops, db, db', env, env', positive, cs[i], r.args[i]);
      }
    case Or(cs) =>
      forall i | 0 <= i < |cs|
        ensures Eval(ops, db, env, r.args[i]) == Wanted(positive) ==> Eval(ops, db', env', cs[i]) == Wanted(positive)
      {
        PlainCertain(ops, db, db', env, env', positive, cs[i], r.args[i]);
      }
    case Not(a) => PlainCertain(ops, db, db', env, env', !positive, a, r.arg);
    case _ =>
  }

  // ----- soundness -----

  lemma EnterObeys(cat: Catalog, db: Database, chain: Chain, env: Env, known: set<Attr>, rels: seq<nat>, pick: seq<nat>)
    requires DbObeys(cat, db) && EnvObeys(cat.notNull + known, chain, env) && Picks(db, rels, pick)
    ensures EnvObeys(cat.notNull + set a | a in known && !InChain([ScopeOf(cat, rels)], a),
                     [ScopeOf(cat, rels)] + chain, [Picked(db, rels, pick)] + env)
  {
    var kept := set a | a in known && !InChain([ScopeOf(cat, rels)], a);
    ObeysLess(cat.notNull + known, cat.notNull, chain, env);
    ObeysLess(cat.notNull + known, cat.notNull + kept, chain, env);
    ExtendObeys(cat, db, chain, env, rels, pick);
    var inner, here := [ScopeOf(cat, rels)] + chain, [Picked(db, rels, pick)] + env;
    forall l, n | 0 <= l < |here| && 0 <= n < |here[l]| ensures RowObeys(cat.notNull + kept, inner[l][n], here[l][n]) {
      assert RowObeys(cat.notNull, inner[l][n], here[l][n]);
      if l == 0 {
        forall i | 0 <= i < |inner[0][n]| ensures inner[0][n][i] !in kept {
          assert InChain([ScopeOf(cat, rels)], [ScopeOf(cat, rels)][0][n][i]);
        }
      } else {
        assert RowObeys(cat.notNull + kept, chain[l - 1][n], env[l - 1][n]);
      }
    }
  }

  /** What a condition that came out true has needed may be relied on inside it. */
  lemma GainedObeys(ops: Operators, cat: Catalog, db: Database, chain: Chain, env: Env, known: set<Attr>,
                    positive: bool, c: Cond, r: Cond)
    requires DbObeys(cat, db) && EnvObeys(cat.notNull + known, chain, env)
    requires positive ==> Shaped(true, c, r) && Eval(ops, db, env, r) == True
    ensures EnvObeys(cat.notNull + (known + Gained(cat, chain, positive, c)), chain, env)
  {
    var more := Gained(cat, chain, positive, c);
    ObeysLess(cat.notNull + known, cat.notNull, chain, env);
    forall a | a in more ensures Valued(chain, env, a) { NeededValued(ops, cat, db, chain, env, true, c, r, a); }
    ObeysMore(cat.notNull + known, more, chain, env);
    assert cat.notNull + known + more == cat.notNull + (known + more);
  }

  /** Certain-answer soundness with tests skipped in context: the three claims of WeakenedSound. */
  lemma {:induction false} BackedSound(ops: Operators, cat: Catalog, db: Database, db': Database, chain: Chain,
                                       env: Env, env': Env,
                                       known: set<Attr>, positive: bool, c: Cond, r: Cond)
    requires Backed(cat, known, positive, chain, c, r) && Supported(cat, positive, chain, c)
    requires CompletesDb(db, db') && DbObeys(cat, db)
    requires CompletesEnv(env, env') && EnvObeys(cat.notNull + known, chain, env)
    ensures positive && Eval(ops, db, env, r) == True ==> Eval(ops, db', env', c) == True
    ensures !positive && Eval(ops, db', env', c) == True ==> Eval(ops, db, env, r) == True
    ensures !positive && Eval(ops, db, env, r) == False ==> Eval(ops, db', env', c) == False
    decreases c, 1
  {
    BackedShaped(cat, known, positive, chain, c, r);
    if positive && ExistsFree(c) && Shaped(true, c, r) {
      SupportedPlain(cat, positive, chain, c);
      PlainCertain(ops, db, db', env, env', true, c, r);
    } else {
      match c
      case Compare(op, ts) =>
        if positive {
          if NullFree(TermValues(env, ts)) { CompletedAtom(ops, env, env', op, ts); }
        } else {
          WeakAtomSound(ops, Knowing(cat, known), db, db', chain, env, env', op, ts, r);
        }
      case And(cs) => BackedJunction(ops, cat, db, db', chain, env, env', known, positive, c, cs, r);
      case Or(cs) => BackedJunction(ops, cat, db, db', chain, env, env', known, positive, c, cs, r);
      case Not(a) =>
        BackedSound(ops, cat, db, db', chain, env, env', known, !positive, a, r.arg);
        if !positive {
          ObeysLess(cat.notNull + known, cat.notNull, chain, env);
          ShapedTwoValued(cat, chain, true, a, r.arg);
          TwoValuedEval(ops, cat, db, chain, env, r.arg);
        }
      case Exists(rels, q) =>
        forall pick | Picks(db, rels, pick)
          ensures Picks(db', rels, pick)
          ensures positive && Eval(ops, db, [Picked(db, rels, pick)] + env, r.quals) == True ==>
                    Eval(ops, db', [Picked(db', rels, pick)] + env', q) == True
          ensures !positive && Eval(ops, db', [Picked(db', rels, pick)] + env', q) == True ==>
                    Eval(ops, db, [Picked(db, rels, pick)] + env, r.quals) == True
        {
          BackedQuery(ops, cat, db, db', chain, env, env', known, positive, rels, q, r.quals, pick);
        }
        forall pick | Picks(db', rels, pick) ensures Picks(db, rels, pick) { PickCompletes(db, db', rels, pick); }
      case _ =>
    }
  }

  lemma {:induction false} SupportedPlain(cat: Catalog, positive: bool, chain: Chain, c: Cond)
    requires Supported(cat, positive, chain, c)
    ensures NoNullTest(c)
    decreases c
  {
    match c
    case And(cs) => forall i | 0 <= i < |cs| ensures NoNullTest(cs[i]) { SupportedPlain(cat, positive, chain, cs[i]); }
    case Or(cs) => forall i | 0 <= i < |cs| ensures NoNullTest(cs[i]) { SupportedPlain(cat, positive, chain, cs[i]); }
    case Not(a) => SupportedPlain(cat, !positive, chain, a);
    case Exists(rels, q) => SupportedPlain(cat, positive, [ScopeOf(cat, rels)] + chain, q);
    case _ =>
  }

  lemma {:induction false} BackedJunction(ops: Operators, cat: Catalog, db: Database, db': Database, chain: Chain,
                                          env: Env, env': Env,
                                          known: set<Attr>, positive: bool, c: Cond, cs: seq<Cond>, r: Cond)
    requires c == And(cs) || c == Or(cs)
    requires (r.And? && c.And?) || (r.Or? && c.Or?)
    requires |r.args| == |cs| && Shaped(positive, c, r) && Supported(cat, positive, chain, c)
    requires forall i ::
      0 <= i < |cs| ==> Backed(cat, known + Gained(cat, chain, positive, c), positive, chain, cs[i], r.args[i])
    requires CompletesDb(db, db') && DbObeys(cat, db)
    requires CompletesEnv(env, env') && EnvObeys(cat.notNull + known, chain, env)
    ensures positive && Eval(ops, db, env, r) == True ==> Eval(ops, db', env', c) == True
    ensures !positive && Eval(ops, db', env', c) == True ==> Eval(ops, db, env, r) == True
    ensures !positive && Eval(ops, db, env, r) == False ==> Eval(ops, db', env', c) == False
    decreases c, 0
  {
    var more := known + Gained(cat, chain, positive, c);
    if !positive || Eval(ops, db, env, r) == True {
      GainedObeys(ops, cat, db, chain, env, known, positive, c, r);
      forall i | 0 <= i < |cs|
        ensures positive && Eval(ops, db, env, r.args[i]) == True ==> Eval(ops, db', env', cs[i]) == True
        ensures !positive && Eval(ops, db', env', cs[i]) == True ==> Eval(ops, db, env, r.args[i]) == True
        ensures !positive && Eval(ops, db, env, r.args[i]) == False ==> Eval(ops, db', env', cs[i]) == False
      {
        BackedSound(ops, cat, db, db', chain, env, env', more, positive, cs[i], r.args[i]);
      }
    }
  }

  lemma {:induction false} BackedQuery(ops: Operators, cat: Catalog, db: Database, db': Database, chain: Chain,
                                       env: Env, env': Env,
                                       known: set<Attr>, positive: bool, rels: seq<nat>, q: Cond, r: Cond,
                                         pick: seq<nat>)
    requires Backed(cat, Entered(cat, chain, positive, known, rels, q), positive, [ScopeOf(cat, rels)] + chain, q, r)
    requires Supported(cat, positive, [ScopeOf(cat, rels)] + chain, q) && Picks(db, rels, pick)
    requires CompletesDb(db, db') && DbObeys(cat, db)
    requires CompletesEnv(env, env') && EnvObeys(cat.notNull + known, chain, env)
    ensures Picks(db', rels, pick)
    ensures positive && Eval(ops, db, [Picked(db, rels, pick)] + env, r) == True ==>
              Eval(ops, db', [Picked(db', rels, pick)] + env', q) == True
    ensures !positive && Eval(ops, db', [Picked(db', rels, pick)] + env', q) == True ==>
              Eval(ops, db, [Picked(db, rels, pick)] + env, r) == True
    decreases q, 2
  {
    var inner, here := [ScopeOf(cat, rels)] + chain, [Picked(db, rels, pick)] + env;
    ObeysLess(cat.notNull + known, cat.notNull, chain, env);
    ExtendEnv(cat, db, db', chain, env, env', rels, pick);
    EnterObeys(cat, db, chain, env, known, rels, pick);
    var kept := set a | a in known && !InChain([ScopeOf(cat, rels)], a);
    BackedShaped(cat, Entered(cat, chain, positive, known, rels, q), positive, inner, q, r);
    if !positive || Eval(ops, db, here, r) == True {
      GainedObeys(ops, cat, db, inner, here, kept, positive, q, r);
      BackedSound(ops, cat, db, db', inner, here, [Picked(db', rels, pick)] + env',
                  kept + Gained(cat, inner, positive, q), positive, q, r);
    }
  }

  // ----- the mutator -----

  /**
   Every test that the mutator skips at negative polarity is on a column that is declared NOT NULL or
   known to have a value: skip is the list of the context, at the number of AND and OR nodes passed.
   */
  ghost predicate Earned(cat: Catalog, s: Script, known: set<Attr>, positive: bool, chain: Chain, skip: seq<Attr>,
                         at: nat, c: Cond)
    decreases c
  {
    (positive && ExistsFree(c)) ||
    match c
    case Compare(_, ts) =>
      positive || forall t ::
        t in ts && t.Column? && InScope(chain, t) && AttrOf(chain, t) in skip ==>
          AttrOf(chain, t) in cat.notNull + known
    case And(cs) =>
      EarnedArgs(cat, s, known + Gained(cat, chain, positive, c), positive, chain, skip + Looked(s, positive, at),
                 at + 1, cs)
    case Or(cs) =>
      EarnedArgs(cat, s, known + Gained(cat, chain, positive, c), positive, chain, skip + Looked(s, positive, at),
                 at + 1, cs)
    case Not(a) => Earned(cat, s, known, !positive, chain, skip, at, a)
    case Exists(rels, q) =>
      Earned(cat, s, Entered(cat, chain, positive, known, rels, q), positive, [ScopeOf(cat, rels)] + chain, skip, at, q)
    case _ => true
  }

  ghost predicate EarnedArgs(cat: Catalog, s: Script, known: set<Attr>, positive: bool, chain: Chain, skip: seq<Attr>,
                             at: nat, cs: seq<Cond>)
    decreases cs
  {
    cs == [] ||
    (Earned(cat, s, known, positive, chain, skip, at, cs[0]) &&
     EarnedArgs(cat, s, known, positive, chain, skip, at + Junctions(cs[0]), cs[1..]))
  }

  /** The list that the mutator finds for the AND or OR node number at. */
  function Looked(s: Script, positive: bool, at: nat): seq<Attr> {
    NthOr(if positive then s.listTrue else s.listFalse, |s.listTrue| - at - 1)
  }

  /** Only IS NULL tests wait. */
  predicate Waiting(st: Context) {
    forall i :: 0 <= i < |st.toAdd| ==> st.toAdd[i].IsNull?
  }

  lemma CompareShaped(st: Context, c: Cond)
    requires c.Compare? && Waiting(st)
    ensures Shaped(st.positive, c, MutateCompare(st, c).0) && Waiting(MutateCompare(st, c).1)
  {
    NullTestsAll(st.(ready := st.ready || (!st.positive && c.op in LISTED)), c.terms);
  }

  lemma {:induction false} MutateShaped(s: Script, st: Context, c: Cond)
    requires Waiting(st)
    ensures Shaped(st.positive, c, Mutate(s, st, c).0) && Waiting(Mutate(s, st, c).1)
    decreases c
  {
    match c
    case Compare(_, _) => CompareShaped(st, c);
    case IsNull(t) => NullTestsAll(st, [t]);
    case And(cs) => MutateArgsShaped(s, EnterJunction(s, st), cs);
    case Or(cs) => MutateArgsShaped(s, EnterJunction(s, st), cs);
    case Not(a) => MutateShaped(s, st.(positive := !st.positive), a);
    case Exists(_, q) => MutateShaped(s, EnterQuery(s, st), q);
    case _ =>
  }

  lemma {:induction false} MutateArgsShaped(s: Script, st: Context, cs: seq<Cond>)
    requires Waiting(st)
    ensures var (rs, st') := MutateArgs(s, st, cs);
      Waiting(st') && forall i :: 0 <= i < |cs| ==> Shaped(st.positive, cs[i], rs[i])
    decreases cs
  {
    if cs != [] {
      MutateShaped(s, st, cs[0]);
      MutateArgsShaped(s, Mutate(s, st, cs[0]).1, cs[1..]);
    }
  }

  lemma CompareBacked(cat: Catalog, known: set<Attr>, st: Context, c: Cond)
    requires c.Compare? && Waiting(st) && Covered(cat, st.positive, st.trueVar, c)
    requires st.positive || forall t ::
      t in c.terms && t.Column? && InScope(st.trueVar, t) && AttrOf(st.trueVar, t) in st.notNull ==>
      AttrOf(st.trueVar, t) in cat.notNull + known
    ensures Backed(cat, known, st.positive, st.trueVar, c, MutateCompare(st, c).0)
  {
    var st1 := st.(ready := st.ready || (!st.positive && c.op in LISTED));
    NullTestsAll(st1, c.terms);
    CompareShaped(st, c);
    var r := MutateCompare(st, c).0;
    if !st.positive {
      forall t | t in c.terms && t.Column? && !KnownNotNull(st.trueVar, cat.notNull + known, t)
        ensures r.Or? && IsNull(t) in r.args
      {
        assert !KnownNotNull(st.trueVar, cat.notNull, t);
        assert st1.ready && !Skipped(st1, t);
        assert IsNull(t) in NullTests(st1, c.terms);
      }
    }
  }

  /** Whatever lists it works with: where the skipped tests are earned, the mutator backs its result. */
  lemma {:induction false} MutateBacked(cat: Catalog, s: Script, known: set<Attr>, st: Context, c: Cond)
    requires Waiting(st) && Paired(cat, s, st, c) && Covered(cat, st.positive, st.trueVar, c)
    requires Supported(cat, st.positive, st.trueVar, c)
    requires Earned(cat, s, known, st.positive, st.trueVar, st.notNull, st.at, c)
    ensures Backed(cat, known, st.positive, st.trueVar, c, Mutate(s, st, c).0)
    decreases c
  {
    if st.positive && ExistsFree(c) {
      MutateShaped(s, st, c);
    } else {
      match c
      case Compare(_, _) => CompareBacked(cat, known, st, c);
      case And(cs) =>
        MutateArgsBacked(cat, s, known + Gained(cat, st.trueVar, st.positive, c), EnterJunction(s, st), cs);
      case Or(cs) =>
        MutateArgsBacked(cat, s, known + Gained(cat, st.trueVar, st.positive, c), EnterJunction(s, st), cs);
      case Not(a) => MutateBacked(cat, s, known, st.(positive := !st.positive), a);
      case Exists(rels, q) =>
        var inner := [ScopeOf(cat, rels)] + st.trueVar;
        PrefixSplit([inner], Chains(cat, inner, q), s.trueVars, st.atQuery);
        assert s.trueVars[st.atQuery..][0] == inner;
        assert EnterQuery(s, st).trueVar == inner;
        MutateBacked(cat, s, Entered(cat, st.trueVar, st.positive, known, rels, q), EnterQuery(s, st), q);
      case _ =>
    }
  }

  lemma {:induction false} MutateArgsBacked(cat: Catalog, s: Script, known: set<Attr>, st: Context, cs: seq<Cond>)
    requires Waiting(st) && PairedArgs(cat, s, st, cs)
    requires forall i ::
      0 <= i < |cs| ==> Covered(cat, st.positive, st.trueVar, cs[i]) && Supported(cat, st.positive, st.trueVar, cs[i])
    requires EarnedArgs(cat, s, known, st.positive, st.trueVar, st.notNull, st.at, cs)
    ensures forall i :: 0 <= i < |cs| ==> Backed(cat, known, st.positive, st.trueVar, cs[i], MutateArgs(s, st, cs).0[i])
    decreases cs
  {
    if cs != [] {
      PrefixSplit(Chains(cat, st.trueVar, cs[0]), ChainsOf(cat, st.trueVar, cs[1..]), s.trueVars, st.atQuery);
      MutateBacked(cat, s, known, st, cs[0]);
      MutateShaped(s, st, cs[0]);
      MutateCounts(s, st, cs[0]);
      MutateQueries(cat, s, st, cs[0]);
      MutateArgsBacked(cat, s, known, Mutate(s, st, cs[0]).1, cs[1..]);
    }
  }

  /** One scope chain is taken for each subquery. */
  lemma {:induction false} MutateQueries(cat: Catalog, s: Script, st: Context, c: Cond)
    requires Paired(cat, s, st, c)
    ensures Mutate(s, st, c).1.atQuery == st.atQuery + |Chains(cat, st.trueVar, c)|
    decreases c
  {
    match c
    case And(cs) => MutateArgsQueries(cat, s, EnterJunction(s, st), cs);
    case Or(cs) => MutateArgsQueries(cat, s, EnterJunction(s, st), cs);
    case Not(a) => MutateQueries(cat, s, st.(positive := !st.positive), a);
    case Exists(rels, q) =>
      var inner := [ScopeOf(cat, rels)] + st.trueVar;
      PrefixSplit([inner], Chains(cat, inner, q), s.trueVars, st.atQuery);
      assert s.trueVars[st.atQuery..][0] == inner;
      assert EnterQuery(s, st).trueVar == inner;
      MutateQueries(cat, s, EnterQuery(s, st), q);
    case _ =>
  }

  lemma {:induction false} MutateArgsQueries(cat: Catalog, s: Script, st: Context, cs: seq<Cond>)
    requires PairedArgs(cat, s, st, cs)
    ensures MutateArgs(s, st, cs).1.atQuery == st.atQuery + |ChainsOf(cat, st.trueVar, cs)|
    decreases cs
  {
    if cs != [] {
      PrefixSplit(Chains(cat, st.trueVar, cs[0]), ChainsOf(cat, st.trueVar, cs[1..]), s.trueVars, st.atQuery);
      MutateQueries(cat, s, st, cs[0]);
      MutateArgsQueries(cat, s, Mutate(s, st, cs[0]).1, cs[1..]);
    }
  }

  /**
   A rewritten query returns certain answers whatever lists it was rewritten with, if its skipped tests are
   earned.
   */
  lemma EarnedQueryIsCertain(ops: Operators, cat: Catalog, s: Script, skip: seq<Attr>,
                             db: Database, db': Database, rels: seq<nat>, quals: Cond, pick: seq<nat>)
    requires s.trueVars == [[ScopeOf(cat, rels)]] + Chains(cat, [ScopeOf(cat, rels)], quals)
    requires Supported(cat, true, [ScopeOf(cat, rels)], quals) && Covered(cat, true, [ScopeOf(cat, rels)], quals)
    requires Earned(cat, s, {}, true, [ScopeOf(cat, rels)], skip, 0, quals)
    requires CompletesDb(db, db') && DbObeys(cat, db)
    requires Returns(ops, db, rels, Mutate(s, Start(s, skip), quals).0, pick)
    ensures Returns(ops, db', rels, quals, pick)
  {
    var chain, st := [ScopeOf(cat, rels)], Start(s, skip);
    assert s.trueVars[1..] == Chains(cat, chain, quals);
    MutateBacked(cat, s, {}, st, quals);
    ExtendEnv(cat, db, db', [], [], [], rels, pick);
    assert [ScopeOf(cat, rels)] + [] == chain;
    assert [Picked(db, rels, pick)] + [] == [Picked(db, rels, pick)];
    assert [Picked(db', rels, pick)] + [] == [Picked(db', rels, pick)];
    assert cat.notNull + {} == cat.notNull;
    BackedSound(ops, cat, db, db', chain, [Picked(db, rels, pick)], [Picked(db', rels, pick)], {}, true, quals,
                Mutate(s, st, quals).0);
  }
}
