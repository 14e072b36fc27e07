/** The two passes of the hook on a whole query, and for which queries their result is certain. */
module Hook {
  import opened Sql
  import opened Completions
  import opened Mutator
  import opened SharedLists
  import opened SkipSound
  import Walker
  import WalkerPass
  import MutatorPlain

  /** Everything the first pass leaves for the second. */
  function FirstPass(cat: Catalog, rels: seq<nat>, quals: Cond): Script
    requires WellScoped(cat, [ScopeOf(cat, rels)], quals)
  {
    var top := [ScopeOf(cat, rels)];
    Script(Shared(cat, top, true, quals, [], []), Shared(cat, top, false, quals, [], []),
           [top] + Chains(cat, top, quals))
  }

  /** The query is one the hook is made for, and the tests it skips are earned. */
  ghost predicate Fit(cat: Catalog, rels: seq<nat>, quals: Cond) {
    var top := [ScopeOf(cat, rels)];
    && WellScoped(cat, top, quals) && Supported(cat, true, top, quals) && Covered(cat, true, top, quals)
    && Earned(cat, FirstPass(cat, rels, quals), {}, true, top, [], 0, quals)
  }

  /** r returns a row only where quals returns it under every completion of the nulls. */
  ghost predicate Certain(cat: Catalog, rels: seq<nat>, quals: Cond, r: Cond) {
    forall ops: Operators, db: Database, db': Database, pick: seq<nat> ::
      CompletesDb(db, db') && DbObeys(cat, db) && Returns(ops, db, rels, r, pick) ==>
        Returns(ops, db', rels, quals, pick)
  }

  /** What the hook is for: the query it leaves returns certain answers only. */
  method PostParseAnalyse(cat: Catalog, rels: seq<nat>, quals: Cond) returns (r: Cond, known: seq<Attr>)
    requires WellScoped(cat, [ScopeOf(cat, rels)], quals) && Walker.NoNullTest(quals)
    ensures forall a :: a in known <==> WalkerPass.Declares(cat, Exists(rels, quals), a)
    ensures var s := FirstPass(cat, rels, quals); r == Mutate(s, Start(s, known), quals).0
    ensures Fit(cat, rels, quals) ==> Certain(cat, rels, quals, r)
    ensures var s, skip, top := FirstPass(cat, rels, quals), (set a | a in known), [ScopeOf(cat, rels)];
      MutatorPlain.NoLeak(cat, s, skip, true, top, 0, quals) ==>
        r == MutatorPlain.Plain(cat, s, skip, true, top, 0, quals)
  {
    ghost var top := [ScopeOf(cat, rels)];
    var script;
    script, known := RunFirstPass(cat, rels, quals);
    SharedCount(cat, top, true, quals, [], []);
    SharedCount(cat, top, false, quals, [], []);
    var modifier := new ContextModifier(script, known);
    modifier.trueVar, modifier.atQuery := script.trueVars[0], 1;
    assert script.trueVars[1..] == Chains(cat, top, quals);
    r := modifier.MutateNode(cat, quals);
    if Fit(cat, rels, quals) { FitIsCertain(cat, rels, quals, known); }
    ghost var skip := set a | a in known;
    if MutatorPlain.NoLeak(cat, script, skip, true, top, 0, quals) {
      MutatorPlain.MutateIsPlain(cat, script, Start(script, known), skip, quals);
    }
  }

  /** The first pass over the whole query, and its lists as the second pass is going to read them. */
  method RunFirstPass(cat: Catalog, rels: seq<nat>, quals: Cond) returns (script: Script, known: seq<Attr>)
    requires WellScoped(cat, [ScopeOf(cat, rels)], quals) && Walker.NoNullTest(quals)
    ensures script == FirstPass(cat, rels, quals)
    ensures forall a :: a in known <==> WalkerPass.Declares(cat, Exists(rels, quals), a)
    ensures ListsExact(cat, rels, quals, script.listTrue, true) && ListsExact(cat, rels, quals, script.listFalse, false)
  {
    var ctx := new WalkerPass.ContextWalker(cat);
    assert [ScopeOf(cat, rels)] + [] == [ScopeOf(cat, rels)];
    ctx.WalkQuery(rels, quals);
    var listTrue := ctx.Stored(ctx.listTrue);
    var listFalse := ctx.Stored(ctx.listFalse);
    script, known := Script(listTrue, listFalse, ctx.trueVars), ctx.schema;
    FirstPassExactly(cat, rels, quals);
  }

  /** The stored lists for want, node by node. */
  ghost predicate ListsExact(cat: Catalog, rels: seq<nat>, quals: Cond, lists: seq<seq<Attr>>, want: bool)
    requires WellScoped(cat, [ScopeOf(cat, rels)], quals)
  {
    |lists| == Junctions(quals) && forall k: nat, a :: k < |lists| ==>
      (a in lists[k] <==> Listed(cat, [ScopeOf(cat, rels)], want, quals, k, b => false, b => false, a))
  }

  /** On the list of an AND or OR is what the node demands, and if it demands anything, what is demanded next. */
  lemma FirstPassExactly(cat: Catalog, rels: seq<nat>, quals: Cond)
    requires WellScoped(cat, [ScopeOf(cat, rels)], quals)
    ensures var s := FirstPass(cat, rels, quals);
      ListsExact(cat, rels, quals, s.listTrue, true) && ListsExact(cat, rels, quals, s.listFalse, false)
  {
    var s, top := FirstPass(cat, rels, quals), [ScopeOf(cat, rels)];
    SharedCount(cat, top, true, quals, [], []);
    SharedCount(cat, top, false, quals, [], []);
    forall k: nat, a | k < Junctions(quals)
      ensures a in s.listTrue[k] <==> Listed(cat, top, true, quals, k, b => false, b => false, a)
      ensures a in s.listFalse[k] <==> Listed(cat, top, false, quals, k, b => false, b => false, a)
    {
      SharedExactly(cat, top, true, quals, k, [], [], b => false, b => false, a);
      SharedExactly(cat, top, false, quals, k, [], [], b => false, b => false, a);
    }
  }

  lemma FitIsCertain(cat: Catalog, rels: seq<nat>, quals: Cond, known: seq<Attr>)
    requires Fit(cat, rels, quals) && forall a :: a in known ==> a in cat.notNull
    ensures var s := FirstPass(cat, rels, quals); Certain(cat, rels, quals, Mutate(s, Start(s, known), quals).0)
  {
    var s := FirstPass(cat, rels, quals);
    EarnedMore(cat, s, {}, true, [ScopeOf(cat, rels)], [], known, 0, quals);
    forall ops: Operators, db: Database, db': Database, pick: seq<nat>
      | CompletesDb(db, db') && DbObeys(cat, db) && Returns(ops, db, rels, Mutate(s, Start(s, known), quals).0, pick)
      ensures Returns(ops, db', rels, quals, pick)
    {
      EarnedQueryIsCertain(ops, cat, s, known, db, db', rels, quals, pick);
    }
  }

  ghost predicate NoMore(cat: Catalog, skip: seq<Attr>, skip': seq<Attr>) {
    forall a :: a in skip' ==> a in skip || a in cat.notNull
  }

  /** Skipping tests on NOT NULL columns too needs no more. */
  lemma {:induction false} EarnedMore(cat: Catalog, s: Script, known: set<Attr>, positive: bool, chain: Chain,
                                      skip: seq<Attr>, skip': seq<Attr>, at: nat, c: Cond)
    requires Earned(cat, s, known, positive, chain, skip, at, c) && NoMore(cat, skip, skip')
    ensures Earned(cat, s, known, positive, chain, skip', at, c)
    decreases c
  {
    if !(positive && ExistsFree(c)) {
      var more, l := known + Gained(cat, chain, positive, c), Looked(s, positive, at);
      match c
      case And(cs) => EarnedMoreArgs(cat, s, more, positive, chain, skip + l, skip' + l, at + 1, cs);
      case Or(cs) => EarnedMoreArgs(cat, s, more, positive, chain, skip + l, skip' + l, at + 1, cs);
      case Not(a) => EarnedMore(cat, s, known, !positive, chain, skip, skip', at, a);
      case Exists(rels, q) =>
        EarnedMore(cat, s, Entered(cat, chain, positive, known, rels, q), positive, [ScopeOf(cat, rels)] + chain, skip,
                   skip', at, q);
      case _ =>
    }
  }

  lemma {:induction false} EarnedMoreArgs(cat: Catalog, s: Script, known: set<Attr>, positive: bool, chain: Chain,
                                          skip: seq<Attr>, skip': seq<Attr>, at: nat, cs: seq<Cond>)
    requires EarnedArgs(cat, s, known, positive, chain, skip, at, cs) && NoMore(cat, skip, skip')
    ensures EarnedArgs(cat, s, known, positive, chain, skip', at, cs)
    decreases cs
  {
    if cs != [] {
      EarnedMore(cat, s, known, positive, chain, skip, skip', at, cs[0]);
      EarnedMoreArgs(cat, s, known, positive, chain, skip, skip', at + Junctions(cs[0]), cs[1..]);
    }
  }

  // ----- queries whose lists hold NOT NULL columns only -----

  ghost predicate AllDeclared(cat: Catalog, ls: seq<seq<Attr>>) {
    forall i, a :: 0 <= i < |ls| && a in ls[i] ==> a in cat.notNull
  }

  lemma {:induction false} DeclaredEarned(cat: Catalog, s: Script, known: set<Attr>, positive: bool, chain: Chain,
                                          skip: seq<Attr>, at: nat, c: Cond)
    requires AllDeclared(cat, s.listTrue) && AllDeclared(cat, s.listFalse) && forall a :: a in skip ==> a in cat.notNull
    ensures Earned(cat, s, known, positive, chain, skip, at, c)
    decreases c
  {
    var more := known + Gained(cat, chain, positive, c);
    match c
    case And(cs) => DeclaredEarnedArgs(cat, s, more, positive, chain, skip + Looked(s, positive, at), at + 1, cs);
    case Or(cs) => DeclaredEarnedArgs(cat, s, more, positive, chain, skip + Looked(s, positive, at), at + 1, cs);
    case Not(a) => DeclaredEarned(cat, s, known, !positive, chain, skip, at, a);
    case Exists(rels, q) =>
      DeclaredEarned(cat, s, Entered(cat, chain, positive, known, rels, q), positive, [ScopeOf(cat, rels)] + chain,
                     skip, at, q);
    case _ =>
  }

  lemma {:induction false} DeclaredEarnedArgs(cat: Catalog, s: Script, known: set<Attr>, positive: bool, chain: Chain,
                                              skip: seq<Attr>, at: nat, cs: seq<Cond>)
    requires AllDeclared(cat, s.listTrue) && AllDeclared(cat, s.listFalse) && forall a :: a in skip ==> a in cat.notNull
    ensures EarnedArgs(cat, s, known, positive, chain, skip, at, cs)
    decreases cs
  {
    if cs != [] {
      DeclaredEarned(cat, s, known, positive, chain, skip, at, cs[0]);
      DeclaredEarnedArgs(cat, s, known, positive, chain, skip, at + Junctions(cs[0]), cs[1..]);
    }
  }

  // ----- queries whose AND and OR hold no subquery -----

  predicate PlainJunctions(c: Cond) {
    match c
    case And(_) => ExistsFree(c)
    case Or(_) => ExistsFree(c)
    case Not(a) => PlainJunctions(a)
    case Exists(_, q) => PlainJunctions(q)
    case _ => true
  }

  /** Where no column may be null, nothing has to be earned. */
  lemma {:induction false} TwoValuedEarned(cat: Catalog, s: Script, known: set<Attr>, positive: bool, chain: Chain,
                                           skip: seq<Attr>, at: nat, c: Cond)
    requires TwoValued(cat, chain, c) && ExistsFree(c)
    ensures Earned(cat, s, known, positive, chain, skip, at, c)
    decreases c
  {
    var more := known + Gained(cat, chain, positive, c);
    match c
    case And(cs) => TwoValuedEarnedArgs(cat, s, more, positive, chain, skip + Looked(s, positive, at), at + 1, cs);
    case Or(cs) => TwoValuedEarnedArgs(cat, s, more, positive, chain, skip + Looked(s, positive, at), at + 1, cs);
    case Not(a) => TwoValuedEarned(cat, s, known, !positive, chain, skip, at, a);
    case _ =>
  }

  lemma {:induction false} TwoValuedEarnedArgs(cat: Catalog, s: Script, known: set<Attr>, positive: bool, chain: Chain,
                                               skip: seq<Attr>, at: nat, cs: seq<Cond>)
    requires forall i :: 0 <= i < |cs| ==> TwoValued(cat, chain, cs[i]) && ExistsFree(cs[i])
    ensures EarnedArgs(cat, s, known, positive, chain, skip, at, cs)
    decreases cs
  {
    if cs != [] {
      TwoValuedEarned(cat, s, known, positive, chain, skip, at, cs[0]);
      TwoValuedEarnedArgs(cat, s, known, positive, chain, skip, at + Junctions(cs[0]), cs[1..]);
    }
  }
}
