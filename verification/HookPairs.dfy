/** AND and OR nodes with two arguments: what the functions over arguments come to, for the example queries. */
module HookPairs {
  import opened Sql
  import opened Completions
  import opened Mutator
  import opened TrueVar
  import opened Walker
  import opened SharedLists
  import opened HookSpine

  lemma PairSlices(x: Cond, y: Cond)
    ensures [x, y][1..] == [y] && [y][1..] == []
  {
  }

  lemma PairNodes(x: Cond, y: Cond)
    ensures JunctionsOf([x, y]) == Junctions(x) + Junctions(y)
  {
    PairSlices(x, y);
    assert JunctionsOf([y]) == Junctions(y);
  }

  lemma PairChains(cat: Catalog, chain: Chain, x: Cond, y: Cond)
    ensures ChainsOf(cat, chain, [x, y]) == Chains(cat, chain, x) + Chains(cat, chain, y)
  {
    PairSlices(x, y);
    assert ChainsOf(cat, chain, [y]) == Chains(cat, chain, y) + [];
  }

  lemma PairNeeds(cat: Catalog, chain: Chain, want: bool, x: Cond, y: Cond)
    requires WellScoped(cat, chain, x) && WellScoped(cat, chain, y)
    ensures Needs(cat, chain, want, [x, y]) == Needed(cat, chain, want, x) + Needed(cat, chain, want, y)
    ensures Needs(cat, chain, want, [y]) == Needed(cat, chain, want, y)
  {
    PairSlices(x, y);
    var ls := NeededArgs(cat, chain, want, [x, y]);
    assert ls[1..][1..] == [] && Flatten(ls[1..][1..]) == [];
    assert Flatten(ls[1..]) == ls[1];
    assert NeededArgs(cat, chain, want, [y]) == [Needed(cat, chain, want, y)];
  }

  /** The lists inside the first argument go on with what the second needs. */
  lemma PairShared(cat: Catalog, chain: Chain, want: bool, x: Cond, y: Cond)
    requires WellScoped(cat, chain, x) && WellScoped(cat, chain, y)
    ensures SharedOf(cat, chain, want, [x, y]) ==
      Shared(cat, chain, want, x, Needed(cat, chain, want, y), Needed(cat, chain, !want, y)) +
      Shared(cat, chain, want, y, [], [])
  {
    PairSlices(x, y);
    PairNeeds(cat, chain, want, x, y);
    PairNeeds(cat, chain, !want, x, y);
    assert SharedOf(cat, chain, want, [y]) == Shared(cat, chain, want, y, [], []) + [];
  }

  /** A node that holds no other one. */
  lemma OneShared(cat: Catalog, chain: Chain, want: bool, c: Cond, after: seq<Attr>, other: seq<Attr>)
    requires WellScoped(cat, chain, c) && Junctions(c) == 1 && (c.And? || c.Or?)
    ensures Shared(cat, chain, want, c, after, other) == [Grown(Needed(cat, chain, want, c), after)]
  {
    SharedCount(cat, chain, want, c, after, other);
  }

  lemma NoShared(cat: Catalog, chain: Chain, want: bool, c: Cond, after: seq<Attr>, other: seq<Attr>)
    requires WellScoped(cat, chain, c) && Junctions(c) == 0
    ensures Shared(cat, chain, want, c, after, other) == []
  {
    SharedCount(cat, chain, want, c, after, other);
  }

  /** The lists of a node: those inside it, then its own. */
  lemma NodeShared(cat: Catalog, chain: Chain, want: bool, c: Cond, cs: seq<Cond>)
    requires (c == And(cs) || c == Or(cs)) && WellScoped(cat, chain, c)
    ensures Shared(cat, chain, want, c, [], []) == SharedOf(cat, chain, want, cs) + [Needed(cat, chain, want, c)]
  {
    assert Grown(Needed(cat, chain, want, c), []) == Needed(cat, chain, want, c);
  }

  /** One node in the first argument, none in the second. */
  lemma FirstShared(cat: Catalog, chain: Chain, want: bool, c: Cond, x: Cond, y: Cond)
    requires (c == And([x, y]) || c == Or([x, y])) && WellScoped(cat, chain, x) && WellScoped(cat, chain, y)
    requires Junctions(x) == 1 && (x.And? || x.Or?) && Junctions(y) == 0
    ensures Shared(cat, chain, want, c, [], []) ==
      [Grown(Needed(cat, chain, want, x), Needed(cat, chain, want, y)), Needed(cat, chain, want, c)]
  {
    NodeShared(cat, chain, want, c, [x, y]);
    PairShared(cat, chain, want, x, y);
    OneShared(cat, chain, want, x, Needed(cat, chain, want, y), Needed(cat, chain, !want, y));
    NoShared(cat, chain, want, y, [], []);
  }

  /** Under a NOT, the list goes on with what the second argument needs for the opposite. */
  lemma NegatedShared(cat: Catalog, chain: Chain, want: bool, c: Cond, x: Cond, y: Cond)
    requires (c == And([Not(x), y]) || c == Or([Not(x), y])) && WellScoped(cat, chain, x) && WellScoped(cat, chain, y)
    requires Junctions(x) == 1 && (x.And? || x.Or?)
    ensures |Shared(cat, chain, want, c, [], [])| > 0
    ensures Shared(cat, chain, want, c, [], [])[0] == Grown(Needed(cat, chain, want, x), Needed(cat, chain, !want, y))
  {
    NodeShared(cat, chain, want, c, [Not(x), y]);
    PairShared(cat, chain, want, Not(x), y);
    OneShared(cat, chain, want, x, Needed(cat, chain, !want, y), Needed(cat, chain, want, y));
  }

  lemma PairMutated(s: Script, st: Context, x: Cond, y: Cond)
    ensures var (r, st1) := Mutate(s, st, x);
      var (r', st2) := Mutate(s, st1, y);
      MutateArgs(s, st, [x, y]).0 == [r, r'] && MutateArgs(s, st, [x, y]).1 == st2
  {
    var st1 := Mutate(s, st, x).1;
    var st2 := Mutate(s, st1, y).1;
    PairSlices(x, y);
    assert MutateArgs(s, st2, []).1 == st2 && MutateArgs(s, st1, [y]).1 == st2;
    assert MutateArgs(s, st1, [y]).0 == [Mutate(s, st1, y).0];
    assert MutateArgs(s, st, [x, y]).0 == [Mutate(s, st, x).0] + [Mutate(s, st1, y).0];
  }

  lemma OwnPair(cat: Catalog, known: set<Attr>, positive: bool, chain: Chain, skip: seq<Attr>, x: Cond, y: Cond)
    requires WellScoped(cat, chain, x) && WellScoped(cat, chain, y)
    requires OwnEarned(cat, known, positive, chain, skip, Needed(cat, chain, positive, y), x)
    requires OwnEarned(cat, known, positive, chain, skip, [], y)
    ensures OwnEarnedArgs(cat, known, positive, chain, skip, [x, y])
  {
    PairSlices(x, y);
    PairNeeds(cat, chain, positive, x, y);
    assert OwnEarnedArgs(cat, known, positive, chain, skip, [y]);
  }

  lemma InferredPair(cat: Catalog, known: set<Attr>, positive: bool, chain: Chain, skip: seq<Attr>, x: Cond, y: Cond)
    requires WellScoped(cat, chain, x) && WellScoped(cat, chain, y)
    requires InferredEarned(cat, known, positive, chain, skip, x)
    requires InferredEarned(cat, known, positive, chain, skip, y)
    ensures InferredEarnedArgs(cat, known, positive, chain, skip, [x, y])
  {
    PairSlices(x, y);
    assert InferredEarnedArgs(cat, known, positive, chain, skip, [y]);
  }

  /** A comparison of one column with a constant. */
  lemma AtomNeeds(cat: Catalog, chain: Chain, c: Cond, t: Term, v: Value)
    requires c.Compare? && c.terms == [t, Literal(v)] && t.Column? && InScope(chain, t)
    ensures WellScoped(cat, chain, c) && Needed(cat, chain, true, c) == [AttrOf(chain, t)]
  {
    var a := AttrOf(chain, t);
    assert c.terms[..1] == [t] && [t][..0] == [];
    assert ColumnsOf(chain, [t]) == [a];
    assert ColumnsOf(chain, c.terms) == [a];
    OneDedup(a);
  }

  lemma OneDedup(a: Attr)
    ensures Dedup([a]) == [a]
  {
    assert [a][..0] == [] && Dedup([a][..0]) == [];
  }
}
