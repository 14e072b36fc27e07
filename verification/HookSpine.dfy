/** What has to be earned where every node finds its own list, and where the growth of the lists does not matter. */
module HookSpine {
  import opened Sql
  import opened Completions
  import opened Mutator
  import opened TrueVar
  import opened Walker
  import opened SharedLists
  import opened SkipSound
  import opened Hook
  import opened HookLookup

  /**
   Earned, with the stored list of the node itself: the inferred one and, if that is not empty, what was
   appended after it.  A NOT turns round which list is looked up and which one its list is part of, so
   that after stays what is needed by the conditions behind c in the enclosing AND or OR.
   */
  ghost predicate OwnEarned(cat: Catalog, known: set<Attr>, positive: bool, chain: Chain, skip: seq<Attr>,
                            after: seq<Attr>, c: Cond)
    requires WellScoped(cat, chain, c)
    decreases c
  {
    (positive && ExistsFree(c)) ||
    match c
    case Compare(_, ts) =>
      positive || forall t ::
        t in ts && t.Column? && AttrOf(chain, t) in skip ==> AttrOf(chain, t) in cat.notNull + known
    case And(cs) =>
      OwnEarnedArgs(cat, known + Gained(cat, chain, positive, c), positive, chain,
                    skip + Grown(Needed(cat, chain, positive, c), after), cs)
    case Or(cs) =>
      OwnEarnedArgs(cat, known + Gained(cat, chain, positive, c), positive, chain,
                    skip + Grown(Needed(cat, chain, positive, c), after), cs)
    case Not(a) => OwnEarned(cat, known, !positive, chain, skip, after, a)
    case Exists(rels, q) =>
      OwnEarned(cat, Entered(cat, chain, positive, known, rels, q), positive, [ScopeOf(cat, rels)] + chain, skip, after,
                q)
    case _ => true
  }

  ghost predicate OwnEarnedArgs(cat: Catalog, known: set<Attr>, positive: bool, chain: Chain, skip: seq<Attr>,
                                cs: seq<Cond>)
    requires forall i :: 0 <= i < |cs| ==> WellScoped(cat, chain, cs[i])
    decreases cs
  {
    cs == [] ||
    (OwnEarned(cat, known, positive, chain, skip, Needs(cat, chain, positive, cs[1..]), cs[0]) &&
     OwnEarnedArgs(cat, known, positive, chain, skip, cs[1..]))
  }

  function ListOf(s: Script, want: bool): seq<seq<Attr>> {
    if want then s.listTrue else s.listFalse
  }

  /** The lists of c are the ones that a mutator which has passed at nodes is going to find. */
  ghost predicate Ahead(cat: Catalog, s: Script, positive: bool, chain: Chain, at: nat, after: seq<Attr>,
                        other: seq<Attr>,
                        c: Cond)
    requires WellScoped(cat, chain, c)
  {
    && |s.listTrue| == |s.listFalse| == at + Junctions(c)
    && Shared(cat, chain, positive, c, after, other) <= ListOf(s, positive)
    && Shared(cat, chain, !positive, c, other, after) <= ListOf(s, !positive)
  }

  ghost predicate AheadOf(cat: Catalog, s: Script, positive: bool, chain: Chain, at: nat, cs: seq<Cond>)
    requires forall i :: 0 <= i < |cs| ==> WellScoped(cat, chain, cs[i])
  {
    && |s.listTrue| == |s.listFalse| == at + JunctionsOf(cs)
    && SharedOf(cat, chain, positive, cs) <= ListOf(s, positive)
    && SharedOf(cat, chain, !positive, cs) <= ListOf(s, !positive)
  }

  lemma JunctionFinds(cat: Catalog, s: Script, positive: bool, chain: Chain, at: nat, after: seq<Attr>,
                      other: seq<Attr>,
                      c: Cond, cs: seq<Cond>)
    requires WellScoped(cat, chain, c) && (c == And(cs) || c == Or(cs))
    requires Ahead(cat, s, positive, chain, at, after, other, c)
    ensures Looked(s, positive, at) == Grown(Needed(cat, chain, positive, c), after)
    ensures AheadOf(cat, s, positive, chain, at + 1, cs)
  {
    SharedOfCount(cat, chain, positive, cs);
    SharedOfCount(cat, chain, !positive, cs);
    var own := Grown(Needed(cat, chain, positive, c), after);
    assert Shared(cat, chain, positive, c, after, other) == SharedOf(cat, chain, positive, cs) + [own];
    assert SharedOf(cat, chain, !positive, cs) <= Shared(cat, chain, !positive, c, other, after);
    assert |s.listTrue| - at - 1 == JunctionsOf(cs);
    assert Shared(cat, chain, positive, c, after, other)[JunctionsOf(cs)] == own;
  }

  /** On a query that does not branch into two, what has to be earned depends on the query alone. */
  lemma {:induction false} SpineEarned(cat: Catalog, s: Script, known: set<Attr>, positive: bool, chain: Chain,
                                       skip: seq<Attr>, at: nat, after: seq<Attr>, other: seq<Attr>, c: Cond)
    requires WellScoped(cat, chain, c) && Spine(c)
    requires Junctions(c) == 0 || Ahead(cat, s, positive, chain, at, after, other, c)
    ensures Earned(cat, s, known, positive, chain, skip, at, c) <==>
      OwnEarned(cat, known, positive, chain, skip, after, c)
    decreases c, 1
  {
    match c
    case And(cs) =>
      JunctionFinds(cat, s, positive, chain, at, after, other, c, cs);
      SpineEarnedJunction(cat, s, known + Gained(cat, chain, positive, c), positive, chain, skip, at,
                          Grown(Needed(cat, chain, positive, c), after), cs);
    case Or(cs) =>
      JunctionFinds(cat, s, positive, chain, at, after, other, c, cs);
      SpineEarnedJunction(cat, s, known + Gained(cat, chain, positive, c), positive, chain, skip, at,
                          Grown(Needed(cat, chain, positive, c), after), cs);
    case Not(a) => SpineEarned(cat, s, known, !positive, chain, skip, at, after, other, a);
    case Exists(rels, q) =>
      SpineEarned(cat, s, Entered(cat, chain, positive, known, rels, q), positive, [ScopeOf(cat, rels)] + chain, skip,
                  at, after, other, q);
    case _ =>
  }

  lemma {:induction false} SpineEarnedJunction(cat: Catalog, s: Script, more: set<Attr>, positive: bool, chain: Chain,
                                               skip: seq<Attr>, at: nat, own: seq<Attr>, cs: seq<Cond>)
    requires forall i :: 0 <= i < |cs| ==> WellScoped(cat, chain, cs[i])
    requires Looked(s, positive, at) == own && AheadOf(cat, s, positive, chain, at + 1, cs) && Spines(cs)
    ensures EarnedArgs(cat, s, more, positive, chain, skip + Looked(s, positive, at), at + 1, cs)
            <==> OwnEarnedArgs(cat, more, positive, chain, skip + own, cs)
    decreases cs, 1
  {
    SpineEarnedArgs(cat, s, more, positive, chain, skip + own, at + 1, cs);
  }

  lemma {:induction false} SpineEarnedArgs(cat: Catalog, s: Script, known: set<Attr>, positive: bool, chain: Chain,
                                           skip: seq<Attr>, at: nat, cs: seq<Cond>)
    requires forall i :: 0 <= i < |cs| ==> WellScoped(cat, chain, cs[i])
    requires Spines(cs) && (JunctionsOf(cs) == 0 || AheadOf(cat, s, positive, chain, at, cs))
    ensures EarnedArgs(cat, s, known, positive, chain, skip, at, cs)
            <==> OwnEarnedArgs(cat, known, positive, chain, skip, cs)
    decreases cs, 0
  {
    if cs != [] {
      TailSpines(cs);
      if Junctions(cs[0]) > 0 { HeadAhead(cat, s, positive, chain, at, cs); }
      else if JunctionsOf(cs) > 0 { TailAhead(cat, s, positive, chain, at, cs); }
      SpineEarned(cat, s, known, positive, chain, skip, at, Needs(cat, chain, positive, cs[1..]),
                  Needs(cat, chain, !positive, cs[1..]), cs[0]);
      SpineEarnedArgs(cat, s, known, positive, chain, skip, at + Junctions(cs[0]), cs[1..]);
    }
  }

  lemma HeadAhead(cat: Catalog, s: Script, positive: bool, chain: Chain, at: nat, cs: seq<Cond>)
    requires cs != [] && forall i :: 0 <= i < |cs| ==> WellScoped(cat, chain, cs[i])
    requires JunctionsOf(cs[1..]) == 0 && AheadOf(cat, s, positive, chain, at, cs)
    ensures Ahead(cat, s, positive, chain, at, Needs(cat, chain, positive, cs[1..]),
                  Needs(cat, chain, !positive, cs[1..]),
                  cs[0])
  {
    HeadOrTail(cat, chain, positive, cs);
    HeadOrTail(cat, chain, !positive, cs);
    assert positive == !!positive;
  }

  lemma TailAhead(cat: Catalog, s: Script, positive: bool, chain: Chain, at: nat, cs: seq<Cond>)
    requires cs != [] && forall i :: 0 <= i < |cs| ==> WellScoped(cat, chain, cs[i])
    requires Junctions(cs[0]) == 0 && AheadOf(cat, s, positive, chain, at, cs)
    ensures AheadOf(cat, s, positive, chain, at, cs[1..])
  {
    HeadOrTail(cat, chain, positive, cs);
    HeadOrTail(cat, chain, !positive, cs);
  }

  lemma HeadOrTail(cat: Catalog, chain: Chain, want: bool, cs: seq<Cond>)
    requires cs != [] && forall i :: 0 <= i < |cs| ==> WellScoped(cat, chain, cs[i])
    requires Junctions(cs[0]) == 0 || JunctionsOf(cs[1..]) == 0
    ensures var head := Shared(cat, chain, want, cs[0], Needs(cat, chain, want, cs[1..]),
                               Needs(cat, chain, !want, cs[1..]));
      && (Junctions(cs[0]) == 0 ==> SharedOf(cat, chain, want, cs) == SharedOf(cat, chain, want, cs[1..]))
      && (JunctionsOf(cs[1..]) == 0 ==> SharedOf(cat, chain, want, cs) == head)
  {
    SharedCount(cat, chain, want, cs[0], Needs(cat, chain, want, cs[1..]), Needs(cat, chain, !want, cs[1..]));
    SharedOfCount(cat, chain, want, cs[1..]);
  }

  /** Such a query is fit if every test skipped because of an enclosing node's own stored list is earned. */
  lemma SpineFit(cat: Catalog, rels: seq<nat>, quals: Cond)
    requires var top := [ScopeOf(cat, rels)];
      && WellScoped(cat, top, quals) && Supported(cat, true, top, quals) && Covered(cat, true, top, quals)
    requires Spine(quals)
    ensures Fit(cat, rels, quals) <==> OwnEarned(cat, {}, true, [ScopeOf(cat, rels)], [], [], quals)
  {
    var top := [ScopeOf(cat, rels)];
    SharedCount(cat, top, true, quals, [], []);
    SharedCount(cat, top, false, quals, [], []);
    SpineEarned(cat, FirstPass(cat, rels, quals), {}, true, top, [], 0, [], [], quals);
  }

  // ----- growth that does not matter -----

  /** Earned, with the list that was inferred for the node, as if nothing had been appended to it. */
  ghost predicate InferredEarned(cat: Catalog, known: set<Attr>, positive: bool, chain: Chain, skip: seq<Attr>, c: Cond)
    requires WellScoped(cat, chain, c)
    decreases c
  {
    (positive && ExistsFree(c)) ||
    match c
    case Compare(_, ts) =>
      positive || forall t ::
        t in ts && t.Column? && AttrOf(chain, t) in skip ==> AttrOf(chain, t) in cat.notNull + known
    case And(cs) =>
      InferredEarnedArgs(cat, known + Gained(cat, chain, positive, c), positive, chain,
                         skip + Needed(cat, chain, positive, c), cs)
    case Or(cs) =>
      InferredEarnedArgs(cat, known + Gained(cat, chain, positive, c), positive, chain,
                         skip + Needed(cat, chain, positive, c), cs)
    case Not(a) => InferredEarned(cat, known, !positive, chain, skip, a)
    case Exists(rels, q) =>
      InferredEarned(cat, Entered(cat, chain, positive, known, rels, q), positive, [ScopeOf(cat, rels)] + chain, skip,
                     q)
    case _ => true
  }

  ghost predicate InferredEarnedArgs(cat: Catalog, known: set<Attr>, positive: bool, chain: Chain, skip: seq<Attr>,
                                     cs: seq<Cond>)
    requires forall i :: 0 <= i < |cs| ==> WellScoped(cat, chain, cs[i])
    decreases cs
  {
    cs == [] ||
    (InferredEarned(cat, known, positive, chain, skip, cs[0]) &&
      InferredEarnedArgs(cat, known, positive, chain, skip, cs[1..]))
  }

  /** No argument with an AND or OR inside is followed by one that needs a column. */
  predicate Ordered(cat: Catalog, chain: Chain, positive: bool, cs: seq<Cond>)
    requires forall i :: 0 <= i < |cs| ==> WellScoped(cat, chain, cs[i])
    decreases cs
  {
    cs == [] || ((Junctions(cs[0]) == 0 || Needs(cat, chain, positive, cs[1..]) == []) &&
      Ordered(cat, chain, positive, cs[1..]))
  }

  /**
   The arguments are in order wherever one of them is enough: in an OR that has to be true and in an AND
   that has to be false.  In an AND that has to be true, and an OR that has to be false, any order will do.
   */
  predicate Settled(cat: Catalog, chain: Chain, positive: bool, c: Cond)
    requires WellScoped(cat, chain, c)
    decreases c
  {
    match c
    case And(cs) =>
      (positive || Ordered(cat, chain, positive, cs)) && forall i ::
        0 <= i < |cs| ==> Settled(cat, chain, positive, cs[i])
    case Or(cs) =>
      (!positive || Ordered(cat, chain, positive, cs)) && forall i ::
        0 <= i < |cs| ==> Settled(cat, chain, positive, cs[i])
    case Not(a) => Settled(cat, chain, !positive, a)
    case Exists(rels, q) => Settled(cat, [ScopeOf(cat, rels)] + chain, positive, q)
    case _ => true
  }

  ghost predicate SameMembers(a: seq<Attr>, b: seq<Attr>) {
    forall x :: x in a <==> x in b
  }

  ghost predicate Inside(a: seq<Attr>, b: seq<Attr>) {
    forall x :: x in a ==> x in b
  }

  /** What follows an argument is needed by the node anyway, or there is nothing to grow, or nothing follows. */
  ghost predicate Tame(cat: Catalog, chain: Chain, positive: bool, skip: seq<Attr>, cs: seq<Cond>)
    requires forall i :: 0 <= i < |cs| ==> WellScoped(cat, chain, cs[i])
  {
    Inside(Needs(cat, chain, positive, cs), skip) || Ordered(cat, chain, positive, cs)
  }

  lemma NodeIsTame(cat: Catalog, chain: Chain, positive: bool, skip: seq<Attr>, c: Cond, cs: seq<Cond>)
    requires (c == And(cs) || c == Or(cs)) && WellScoped(cat, chain, c) && Settled(cat, chain, positive, c)
    requires Inside(Needed(cat, chain, positive, c), skip)
    ensures Tame(cat, chain, positive, skip, cs)
  {
    DedupMeans(Needs(cat, chain, positive, cs));
  }

  lemma TailIsTame(cat: Catalog, chain: Chain, positive: bool, skip: seq<Attr>, cs: seq<Cond>)
    requires cs != [] && (forall i :: 0 <= i < |cs| ==> WellScoped(cat, chain, cs[i]))
    requires Tame(cat, chain, positive, skip, cs)
    ensures Tame(cat, chain, positive, skip, cs[1..])
    ensures Junctions(cs[0]) == 0 || Inside(Needs(cat, chain, positive, cs[1..]), skip)
  {
    FlattenCons(cat, chain, positive, cs);
  }

  lemma GrownInside(skip: seq<Attr>, skip': seq<Attr>, needed: seq<Attr>, after: seq<Attr>)
    requires SameMembers(skip, skip') && Inside(after, skip)
    ensures SameMembers(skip + Grown(needed, after), skip' + needed) && Inside(needed, skip + Grown(needed, after))
  {
  }

  /** Then the skipped tests are the same as with the inferred lists. */
  lemma {:induction false} SettledEarned(cat: Catalog, known: set<Attr>, positive: bool, chain: Chain, skip: seq<Attr>,
                                         skip': seq<Attr>, after: seq<Attr>, c: Cond)
    requires WellScoped(cat, chain, c) && Settled(cat, chain, positive, c) && SameMembers(skip, skip')
    requires Junctions(c) == 0 || Inside(after, skip)
    ensures OwnEarned(cat, known, positive, chain, skip, after, c) <==>
      InferredEarned(cat, known, positive, chain, skip', c)
    decreases c, 1
  {
    match c
    case And(cs) =>
      SettledJunction(cat, known + Gained(cat, chain, positive, c), positive, chain, skip, skip', after, c, cs);
    case Or(cs) =>
      SettledJunction(cat, known + Gained(cat, chain, positive, c), positive, chain, skip, skip', after, c, cs);
    case Not(a) => SettledEarned(cat, known, !positive, chain, skip, skip', after, a);
    case Exists(rels, q) =>
      SettledEarned(cat, Entered(cat, chain, positive, known, rels, q), positive, [ScopeOf(cat, rels)] + chain, skip,
                    skip', after, q);
    case _ =>
  }

  lemma {:induction false} SettledJunction(cat: Catalog, more: set<Attr>, positive: bool, chain: Chain, skip: seq<Attr>,
                                           skip': seq<Attr>, after: seq<Attr>, c: Cond, cs: seq<Cond>)
    requires WellScoped(cat, chain, c) && (c == And(cs) || c == Or(cs)) && Settled(cat, chain, positive, c)
    requires SameMembers(skip, skip') && Inside(after, skip)
    ensures OwnEarnedArgs(cat, more, positive, chain, skip + Grown(Needed(cat, chain, positive, c), after), cs) <==>
      InferredEarnedArgs(cat, more, positive, chain, skip' + Needed(cat, chain, positive, c), cs)
    decreases c, 0
  {
    var needed := Needed(cat, chain, positive, c);
    GrownInside(skip, skip', needed, after);
    NodeIsTame(cat, chain, positive, skip + Grown(needed, after), c, cs);
    SettledArgs(cat, more, positive, chain, skip + Grown(needed, after), skip' + needed, cs);
  }

  lemma {:induction false} SettledArgs(cat: Catalog, known: set<Attr>, positive: bool, chain: Chain, skip: seq<Attr>,
                                       skip': seq<Attr>, cs: seq<Cond>)
    requires forall i :: 0 <= i < |cs| ==> WellScoped(cat, chain, cs[i]) && Settled(cat, chain, positive, cs[i])
    requires SameMembers(skip, skip') && Tame(cat, chain, positive, skip, cs)
    ensures OwnEarnedArgs(cat, known, positive, chain, skip, cs) <==>
      InferredEarnedArgs(cat, known, positive, chain, skip', cs)
    decreases cs
  {
    if cs != [] {
      TailIsTame(cat, chain, positive, skip, cs);
      SettledEarned(cat, known, positive, chain, skip, skip', Needs(cat, chain, positive, cs[1..]), cs[0]);
      SettledArgs(cat, known, positive, chain, skip, skip', cs[1..]);
    }
  }

  /** On a settled query that does not branch into two, the shared cells do not matter. */
  lemma SettledFit(cat: Catalog, rels: seq<nat>, quals: Cond)
    requires var top := [ScopeOf(cat, rels)];
      && WellScoped(cat, top, quals) && Supported(cat, true, top, quals) && Covered(cat, true, top, quals)
      && Settled(cat, top, true, quals)
    requires Spine(quals)
    ensures Fit(cat, rels, quals) <==> InferredEarned(cat, {}, true, [ScopeOf(cat, rels)], [], quals)
  {
    SpineFit(cat, rels, quals);
    SettledEarned(cat, {}, true, [ScopeOf(cat, rels)], [], [], [], quals);
  }
}
