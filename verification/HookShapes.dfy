/** Shapes of queries on which the hook's result is certain: conditions that can be read off the query. */
module HookShapes {
  import opened Sql
  import opened Completions
  import opened Mutator
  import opened TrueVar
  import opened Walker
  import opened SharedLists
  import opened SkipSound
  import opened Hook
  import opened HookLookup
  import opened HookSpine

  /** Stored lists that hold NOT NULL columns only. */
  lemma DeclaredListsFit(cat: Catalog, rels: seq<nat>, quals: Cond)
    requires var top := [ScopeOf(cat, rels)];
      && WellScoped(cat, top, quals) && Supported(cat, true, top, quals) && Covered(cat, true, top, quals)
      && AllDeclared(cat, Shared(cat, top, true, quals, [], []))
      && AllDeclared(cat, Shared(cat, top, false, quals, [], []))
    ensures Fit(cat, rels, quals)
  {
    DeclaredEarned(cat, FirstPass(cat, rels, quals), {}, true, [ScopeOf(cat, rels)], [], 0, quals);
  }

  // ----- AND and OR without subqueries -----

  ghost predicate Declared(cat: Catalog, l: seq<Attr>) {
    forall a :: a in l ==> a in cat.notNull
  }

  lemma CombinedDeclared(cat: Catalog, ls: seq<seq<Attr>>, n: nat)
    requires forall i :: 0 <= i < |ls| ==> Declared(cat, ls[i])
    ensures Declared(cat, Dedup(Flatten(ls))) && Declared(cat, Occurring(Flatten(ls), Flatten(ls), n))
  {
    var f := Flatten(ls);
    DedupMeans(f);
    OccurringMeans(f, f, n);
    forall a | a in f ensures a in cat.notNull {
      FlattenMembers(ls, a);
      var i :| 0 <= i < |ls| && a in ls[i];
      assert Declared(cat, ls[i]);
    }
  }

  lemma {:induction false} TwoValuedNeeds(cat: Catalog, chain: Chain, want: bool, c: Cond)
    requires TwoValued(cat, chain, c) && ExistsFree(c) && WellScoped(cat, chain, c)
    ensures Declared(cat, Needed(cat, chain, want, c))
    decreases c
  {
    match c
    case Compare(_, ts) =>
      DedupMeans(ColumnsOf(chain, ts));
      forall a | a in ColumnsOf(chain, ts) ensures a in cat.notNull { ColumnsOfMembers(chain, ts, a); }
    case And(cs) =>
      forall i | 0 <= i < |cs| ensures Declared(cat, Needed(cat, chain, want, cs[i])) {
        TwoValuedNeeds(cat, chain, want, cs[i]);
      }
      CombinedDeclared(cat, NeededArgs(cat, chain, want, cs), |cs|);
    case Or(cs) =>
      forall i | 0 <= i < |cs| ensures Declared(cat, Needed(cat, chain, want, cs[i])) {
        TwoValuedNeeds(cat, chain, want, cs[i]);
      }
      CombinedDeclared(cat, NeededArgs(cat, chain, want, cs), |cs|);
    case Not(a) => TwoValuedNeeds(cat, chain, !want, a);
    case _ =>
  }

  /** At negative polarity a supported condition needs nothing that may be null. */
  lemma {:induction false} NegativeNeeds(cat: Catalog, chain: Chain, c: Cond)
    requires Supported(cat, false, chain, c) && ExistsFree(c) && WellScoped(cat, chain, c)
    ensures Declared(cat, Needed(cat, chain, false, c))
    decreases c
  {
    match c
    case And(cs) =>
      forall i | 0 <= i < |cs| ensures Declared(cat, Needed(cat, chain, false, cs[i])) {
        NegativeNeeds(cat, chain, cs[i]);
      }
      CombinedDeclared(cat, NeededArgs(cat, chain, false, cs), |cs|);
    case Or(cs) =>
      forall i | 0 <= i < |cs| ensures Declared(cat, Needed(cat, chain, false, cs[i])) {
        NegativeNeeds(cat, chain, cs[i]);
      }
      CombinedDeclared(cat, NeededArgs(cat, chain, false, cs), |cs|);
    case Not(a) => TwoValuedNeeds(cat, chain, true, a);
    case _ =>
  }

  lemma NegativeNeedsAll(cat: Catalog, chain: Chain, cs: seq<Cond>)
    requires forall i :: 0 <= i < |cs| ==>
      Supported(cat, false, chain, cs[i]) && ExistsFree(cs[i]) && WellScoped(cat, chain, cs[i])
    ensures Declared(cat, Needs(cat, chain, false, cs))
  {
    var ls := NeededArgs(cat, chain, false, cs);
    forall a | a in Flatten(ls) ensures a in cat.notNull {
      FlattenMembers(ls, a);
      var i :| 0 <= i < |ls| && a in ls[i];
      NegativeNeeds(cat, chain, cs[i]);
    }
  }

  // ----- every node finds its own list -----

  lemma GrownDeclared(cat: Catalog, skip: seq<Attr>, needed: seq<Attr>, after: seq<Attr>)
    requires Declared(cat, skip) && Declared(cat, needed) && Declared(cat, after)
    ensures Declared(cat, skip + Grown(needed, after))
  {
  }

  lemma {:induction false} NegativeOwn(cat: Catalog, known: set<Attr>, chain: Chain, skip: seq<Attr>, after: seq<Attr>,
                                       c: Cond)
    requires Supported(cat, false, chain, c) && ExistsFree(c) && WellScoped(cat, chain, c)
    requires Declared(cat, skip) && Declared(cat, after)
    ensures OwnEarned(cat, known, false, chain, skip, after, c)
    decreases c
  {
    match c
    case And(cs) =>
      NegativeNeeds(cat, chain, c);
      GrownDeclared(cat, skip, Needed(cat, chain, false, c), after);
      NegativeOwnArgs(cat, known + Gained(cat, chain, false, c), chain,
                      skip + Grown(Needed(cat, chain, false, c), after), cs);
    case Or(cs) =>
      NegativeNeeds(cat, chain, c);
      GrownDeclared(cat, skip, Needed(cat, chain, false, c), after);
      NegativeOwnArgs(cat, known + Gained(cat, chain, false, c), chain,
                      skip + Grown(Needed(cat, chain, false, c), after), cs);
    case _ =>
  }

  lemma {:induction false} NegativeOwnArgs(cat: Catalog, known: set<Attr>, chain: Chain, skip: seq<Attr>, cs: seq<Cond>)
    requires forall i :: 0 <= i < |cs| ==>
      Supported(cat, false, chain, cs[i]) && ExistsFree(cs[i]) && WellScoped(cat, chain, cs[i])
    requires Declared(cat, skip)
    ensures OwnEarnedArgs(cat, known, false, chain, skip, cs)
    decreases cs
  {
    if cs != [] {
      NegativeNeedsAll(cat, chain, cs[1..]);
      NegativeOwn(cat, known, chain, skip, Needs(cat, chain, false, cs[1..]), cs[0]);
      NegativeOwnArgs(cat, known, chain, skip, cs[1..]);
    }
  }

  lemma {:induction false} PlainOwn(cat: Catalog, known: set<Attr>, positive: bool, chain: Chain, c: Cond)
    requires PlainJunctions(c) && WellScoped(cat, chain, c) && Supported(cat, positive, chain, c)
    ensures OwnEarned(cat, known, positive, chain, [], [], c)
    decreases c
  {
    if c.And? || c.Or? {
      if !positive { NegativeOwn(cat, known, chain, [], [], c); }
    } else if c.Not? {
      PlainOwn(cat, known, !positive, chain, c.arg);
    } else if c.Exists? {
      PlainOwn(cat, Entered(cat, chain, positive, known, c.rels, c.quals), positive, [ScopeOf(cat, c.rels)] + chain,
               c.quals);
    }
  }

  // ----- no AND or OR under a NOT -----

  /** Inside an AND or OR, no NOT holds an AND or OR. */
  predicate FlatNots(c: Cond) {
    match c
    case And(cs) => forall i :: 0 <= i < |cs| ==> FlatNots(cs[i])
    case Or(cs) => forall i :: 0 <= i < |cs| ==> FlatNots(cs[i])
    case Not(a) => Junctions(a) == 0
    case _ => true
  }

  predicate FlatBlocks(c: Cond) {
    match c
    case And(_) => FlatNots(c)
    case Or(_) => FlatNots(c)
    case Not(a) => FlatBlocks(a)
    case Exists(_, q) => FlatBlocks(q)
    case _ => true
  }

  lemma {:induction false} NegativeShared(cat: Catalog, chain: Chain, same: seq<Attr>, other: seq<Attr>, c: Cond)
    requires Supported(cat, false, chain, c) && ExistsFree(c) && WellScoped(cat, chain, c) && FlatNots(c)
    requires Declared(cat, same)
    ensures AllDeclared(cat, Shared(cat, chain, false, c, same, other))
    decreases c
  {
    match c
    case And(cs) =>
      NegativeSharedOf(cat, chain, cs);
      NegativeNeeds(cat, chain, c);
      GrownDeclared(cat, [], Needed(cat, chain, false, c), same);
      assert [] + Grown(Needed(cat, chain, false, c), same) == Grown(Needed(cat, chain, false, c), same);
    case Or(cs) =>
      NegativeSharedOf(cat, chain, cs);
      NegativeNeeds(cat, chain, c);
      GrownDeclared(cat, [], Needed(cat, chain, false, c), same);
      assert [] + Grown(Needed(cat, chain, false, c), same) == Grown(Needed(cat, chain, false, c), same);
    case Not(a) => SharedCount(cat, chain, false, a, other, same);
    case _ =>
  }

  lemma {:induction false} NegativeSharedOf(cat: Catalog, chain: Chain, cs: seq<Cond>)
    requires forall i :: 0 <= i < |cs| ==>
      Supported(cat, false, chain, cs[i]) && ExistsFree(cs[i]) && WellScoped(cat, chain, cs[i]) && FlatNots(cs[i])
    ensures AllDeclared(cat, SharedOf(cat, chain, false, cs))
    decreases cs
  {
    if cs != [] {
      NegativeNeedsAll(cat, chain, cs[1..]);
      NegativeShared(cat, chain, Needs(cat, chain, false, cs[1..]), Needs(cat, chain, true, cs[1..]), cs[0]);
      NegativeSharedOf(cat, chain, cs[1..]);
    }
  }

  lemma {:induction false} NegativeEarned(cat: Catalog, s: Script, known: set<Attr>, chain: Chain, skip: seq<Attr>,
                                          at: nat, c: Cond)
    requires Supported(cat, false, chain, c) && ExistsFree(c) && AllDeclared(cat, s.listFalse) && Declared(cat, skip)
    ensures Earned(cat, s, known, false, chain, skip, at, c)
    decreases c
  {
    match c
    case And(cs) =>
      NegativeEarnedArgs(cat, s, known + Gained(cat, chain, false, c), chain, skip + Looked(s, false, at), at + 1, cs);
    case Or(cs) =>
      NegativeEarnedArgs(cat, s, known + Gained(cat, chain, false, c), chain, skip + Looked(s, false, at), at + 1, cs);
    case Not(a) => TwoValuedEarned(cat, s, known, true, chain, skip, at, a);
    case _ =>
  }

  lemma {:induction false} NegativeEarnedArgs(cat: Catalog, s: Script, known: set<Attr>, chain: Chain, skip: seq<Attr>,
                                              at: nat, cs: seq<Cond>)
    requires forall i :: 0 <= i < |cs| ==> Supported(cat, false, chain, cs[i]) && ExistsFree(cs[i])
    requires AllDeclared(cat, s.listFalse) && Declared(cat, skip)
    ensures EarnedArgs(cat, s, known, false, chain, skip, at, cs)
    decreases cs
  {
    if cs != [] {
      NegativeEarned(cat, s, known, chain, skip, at, cs[0]);
      NegativeEarnedArgs(cat, s, known, chain, skip, at + Junctions(cs[0]), cs[1..]);
    }
  }

  /** All AND and OR nodes are in one block without subqueries, where every list is harmless. */
  lemma {:induction false} PlainEarned(cat: Catalog, s: Script, known: set<Attr>, positive: bool, chain: Chain, c: Cond)
    requires PlainJunctions(c) && FlatBlocks(c) && WellScoped(cat, chain, c) && Supported(cat, positive, chain, c)
    requires s.listFalse == Shared(cat, chain, false, c, [], [])
    ensures Earned(cat, s, known, positive, chain, [], 0, c)
    decreases c
  {
    if c.And? || c.Or? {
      if !positive {
        NegativeShared(cat, chain, [], [], c);
        NegativeEarned(cat, s, known, chain, [], 0, c);
      }
    } else if c.Not? {
      PlainEarned(cat, s, known, !positive, chain, c.arg);
    } else if c.Exists? {
      PlainEarned(cat, s, Entered(cat, chain, positive, known, c.rels, c.quals), positive,
                  [ScopeOf(cat, c.rels)] + chain, c.quals);
    }
  }

  /**
   Queries whose AND and OR hold no subquery, if no AND or OR branches into two or none stands under a
   NOT inside another.
   */
  lemma PlainJunctionsFit(cat: Catalog, rels: seq<nat>, quals: Cond)
    requires var top := [ScopeOf(cat, rels)];
      && WellScoped(cat, top, quals) && Supported(cat, true, top, quals) && Covered(cat, true, top, quals)
    requires PlainJunctions(quals) && (Spine(quals) || FlatBlocks(quals))
    ensures Fit(cat, rels, quals)
  {
    if Spine(quals) {
      SpineFit(cat, rels, quals);
      PlainOwn(cat, {}, true, [ScopeOf(cat, rels)], quals);
    } else {
      PlainEarned(cat, FirstPass(cat, rels, quals), {}, true, [ScopeOf(cat, rels)], quals);
    }
  }
}
