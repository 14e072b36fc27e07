/**
 The lists of the AND and OR nodes as the second pass finds them.  The list of a node is also the
 next part of the list that its enclosing node is collecting, and what is collected after it is
 linked behind it: a list that is not empty goes on with everything that is appended until the
 enclosing AND or OR is complete.
 */
module SharedLists {
  import opened Sql
  import opened Completions
  import opened Mutator
  import opened TrueVar
  import opened Walker

  /** The lists appended for the AND and OR nodes of c, in the order of a post-order walk. */
  function Lists(cat: Catalog, chain: Chain, want: bool, c: Cond): seq<seq<Attr>>
    requires WellScoped(cat, chain, c)
    decreases c
  {
    match c
    case And(cs) => ListsOf(cat, chain, want, cs) + [Needed(cat, chain, want, c)]
    case Or(cs) => ListsOf(cat, chain, want, cs) + [Needed(cat, chain, want, c)]
    case Not(a) => Lists(cat, chain, want, a)
    case Exists(rels, q) => Lists(cat, [ScopeOf(cat, rels)] + chain, want, q)
    case _ => []
  }

  function ListsOf(cat: Catalog, chain: Chain, want: bool, cs: seq<Cond>): seq<seq<Attr>>
    requires forall i :: 0 <= i < |cs| ==> WellScoped(cat, chain, cs[i])
    decreases cs
  {
    if cs == [] then [] else Lists(cat, chain, want, cs[0]) + ListsOf(cat, chain, want, cs[1..])
  }

  lemma {:induction false} ListsCount(cat: Catalog, chain: Chain, want: bool, c: Cond)
    requires WellScoped(cat, chain, c)
    ensures |Lists(cat, chain, want, c)| == Junctions(c)
    decreases c
  {
    match c
    case And(cs) => ListsOfCount(cat, chain, want, cs);
    case Or(cs) => ListsOfCount(cat, chain, want, cs);
    case Not(a) => ListsCount(cat, chain, want, a);
    case Exists(rels, q) => ListsCount(cat, [ScopeOf(cat, rels)] + chain, want, q);
    case _ =>
  }

  lemma {:induction false} ListsOfCount(cat: Catalog, chain: Chain, want: bool, cs: seq<Cond>)
    requires forall i :: 0 <= i < |cs| ==> WellScoped(cat, chain, cs[i])
    ensures |ListsOf(cat, chain, want, cs)| == JunctionsOf(cs)
    decreases cs
  {
    if cs != [] { ListsCount(cat, chain, want, cs[0]); ListsOfCount(cat, chain, want, cs[1..]); }
  }

  /** A list, followed by what was appended to its last cell. */
  function Grown(l: seq<Attr>, after: seq<Attr>): seq<Attr> {
    if l == [] then [] else l + after
  }

  /** What the conditions need one after the other. */
  function Needs(cat: Catalog, chain: Chain, want: bool, cs: seq<Cond>): seq<Attr>
    requires forall i :: 0 <= i < |cs| ==> WellScoped(cat, chain, cs[i])
  {
    Flatten(NeededArgs(cat, chain, want, cs))
  }

  /**
   The lists for want of the nodes of c, where same is appended later to the list being collected for
   want, and other to the one for the opposite.
   */
  function Shared(cat: Catalog, chain: Chain, want: bool, c: Cond, same: seq<Attr>, other: seq<Attr>): seq<seq<Attr>>
    requires WellScoped(cat, chain, c)
    decreases c
  {
    match c
    case And(cs) => SharedOf(cat, chain, want, cs) + [Grown(Needed(cat, chain, want, c), same)]
    case Or(cs) => SharedOf(cat, chain, want, cs) + [Grown(Needed(cat, chain, want, c), same)]
    case Not(a) => Shared(cat, chain, want, a, other, same)
    case Exists(rels, q) => Shared(cat, [ScopeOf(cat, rels)] + chain, want, q, same, other)
    case _ => []
  }

  function SharedOf(cat: Catalog, chain: Chain, want: bool, cs: seq<Cond>): seq<seq<Attr>>
    requires forall i :: 0 <= i < |cs| ==> WellScoped(cat, chain, cs[i])
    decreases cs
  {
    if cs == [] then []
    else
      Shared(cat, chain, want, cs[0], Needs(cat, chain, want, cs[1..]), Needs(cat, chain, !want, cs[1..])) +
      SharedOf(cat, chain, want, cs[1..])
  }

  lemma {:induction false} SharedCount(cat: Catalog, chain: Chain, want: bool, c: Cond, same: seq<Attr>,
                                       other: seq<Attr>)
    requires WellScoped(cat, chain, c)
    ensures |Shared(cat, chain, want, c, same, other)| == Junctions(c)
    decreases c
  {
    match c
    case And(cs) => SharedOfCount(cat, chain, want, cs);
    case Or(cs) => SharedOfCount(cat, chain, want, cs);
    case Not(a) => SharedCount(cat, chain, want, a, other, same);
    case Exists(rels, q) => SharedCount(cat, [ScopeOf(cat, rels)] + chain, want, q, same, other);
    case _ =>
  }

  lemma {:induction false} SharedOfCount(cat: Catalog, chain: Chain, want: bool, cs: seq<Cond>)
    requires forall i :: 0 <= i < |cs| ==> WellScoped(cat, chain, cs[i])
    ensures |SharedOf(cat, chain, want, cs)| == JunctionsOf(cs)
    decreases cs
  {
    if cs != [] {
      SharedCount(cat, chain, want, cs[0], Needs(cat, chain, want, cs[1..]), Needs(cat, chain, !want, cs[1..]));
      SharedOfCount(cat, chain, want, cs[1..]);
    }
  }

  // ----- what is on a stored list -----

  /** One of the conditions makes the demand. */
  ghost predicate SomeDemands(cat: Catalog, chain: Chain, want: bool, cs: seq<Cond>, a: Attr)
    requires forall i :: 0 <= i < |cs| ==> WellScoped(cat, chain, cs[i])
  {
    exists i :: 0 <= i < |cs| && Demands(cat, chain, want, cs[i], a)
  }

  /**
   The node number k of c, in post-order, has a on its list for want.  It does if the node demands a, or
   if it demands anything and a is demanded later, before the enclosing AND or OR ends: same says what
   is demanded after c for want, other what is demanded for the opposite.
   */
  ghost predicate Listed(cat: Catalog, chain: Chain, want: bool, c: Cond, k: nat, same: Attr -> bool,
                         other: Attr -> bool, a: Attr)
    requires WellScoped(cat, chain, c)
    decreases c
  {
    match c
    case And(cs) => ListedNode(cat, chain, want, c, cs, k, same, a)
    case Or(cs) => ListedNode(cat, chain, want, c, cs, k, same, a)
    case Not(b) => Listed(cat, chain, want, b, k, other, same, a)
    case Exists(rels, q) => Listed(cat, [ScopeOf(cat, rels)] + chain, want, q, k, same, other, a)
    case _ => false
  }

  ghost predicate ListedNode(cat: Catalog, chain: Chain, want: bool, c: Cond, cs: seq<Cond>, k: nat,
                             same: Attr -> bool, a: Attr)
    requires WellScoped(cat, chain, c) && (c == And(cs) || c == Or(cs))
    decreases c, 0
  {
    if k < JunctionsOf(cs) then ListedIn(cat, chain, want, cs, k, a)
    else Demands(cat, chain, want, c, a) || ((exists b :: Demands(cat, chain, want, c, b)) && same(a))
  }

  ghost predicate ListedIn(cat: Catalog, chain: Chain, want: bool, cs: seq<Cond>, k: nat, a: Attr)
    requires forall i :: 0 <= i < |cs| ==> WellScoped(cat, chain, cs[i])
    decreases cs
  {
    cs != [] &&
    if k < Junctions(cs[0]) then
      Listed(cat, chain, want, cs[0], k, b => SomeDemands(cat, chain, want, cs[1..], b),
             b => SomeDemands(cat, chain, !want, cs[1..], b), a)
    else ListedIn(cat, chain, want, cs[1..], k - Junctions(cs[0]), a)
  }

  lemma NeedsExactly(cat: Catalog, chain: Chain, want: bool, cs: seq<Cond>, a: Attr)
    requires forall i :: 0 <= i < |cs| ==> WellScoped(cat, chain, cs[i])
    ensures a in Needs(cat, chain, want, cs) <==> SomeDemands(cat, chain, want, cs, a)
  {
    NeededExactlyArgs(cat, chain, want, cs, a);
    DedupMeans(Needs(cat, chain, want, cs));
  }

  lemma {:induction false} SharedExactly(cat: Catalog, chain: Chain, want: bool, c: Cond, k: nat, same: seq<Attr>,
                                         other: seq<Attr>, same': Attr -> bool, other': Attr -> bool, a: Attr)
    requires WellScoped(cat, chain, c) && k < Junctions(c)
    requires forall b :: (b in same <==> same'(b)) && (b in other <==> other'(b))
    ensures |Shared(cat, chain, want, c, same, other)| == Junctions(c)
    ensures a in Shared(cat, chain, want, c, same, other)[k] <==> Listed(cat, chain, want, c, k, same', other', a)
    decreases c
  {
    SharedCount(cat, chain, want, c, same, other);
    match c
    case And(cs) => SharedExactlyNode(cat, chain, want, c, cs, k, same, same', a);
    case Or(cs) => SharedExactlyNode(cat, chain, want, c, cs, k, same, same', a);
    case Not(b) => SharedExactly(cat, chain, want, b, k, other, same, other', same', a);
    case Exists(rels, q) =>
      SharedExactly(cat, [ScopeOf(cat, rels)] + chain, want, q, k, same, other, same', other', a);
  }

  lemma {:induction false} SharedExactlyNode(cat: Catalog, chain: Chain, want: bool, c: Cond, cs: seq<Cond>, k: nat,
                                             same: seq<Attr>, same': Attr -> bool, a: Attr)
    requires WellScoped(cat, chain, c) && (c == And(cs) || c == Or(cs)) && k <= JunctionsOf(cs)
    requires forall b :: b in same <==> same'(b)
    ensures |SharedOf(cat, chain, want, cs)| == JunctionsOf(cs)
    ensures var l := SharedOf(cat, chain, want, cs) + [Grown(Needed(cat, chain, want, c), same)];
      a in l[k] <==> ListedNode(cat, chain, want, c, cs, k, same', a)
    decreases c, 0
  {
    SharedOfCount(cat, chain, want, cs);
    var needed := Needed(cat, chain, want, c);
    if k < JunctionsOf(cs) {
      SharedExactlyArgs(cat, chain, want, cs, k, a);
    } else {
      forall b ensures b in needed <==> Demands(cat, chain, want, c, b) { NeededExactly(cat, chain, want, c, b); }
      if needed != [] { assert Demands(cat, chain, want, c, needed[0]); }
    }
  }

  lemma {:induction false} SharedExactlyArgs(cat: Catalog, chain: Chain, want: bool, cs: seq<Cond>, k: nat, a: Attr)
    requires (forall i :: 0 <= i < |cs| ==> WellScoped(cat, chain, cs[i])) && k < JunctionsOf(cs)
    ensures |SharedOf(cat, chain, want, cs)| == JunctionsOf(cs)
    ensures a in SharedOf(cat, chain, want, cs)[k] <==> ListedIn(cat, chain, want, cs, k, a)
    decreases cs
  {
    SharedOfCount(cat, chain, want, cs);
    var x, y := Needs(cat, chain, want, cs[1..]), Needs(cat, chain, !want, cs[1..]);
    SharedCount(cat, chain, want, cs[0], x, y);
    if k < Junctions(cs[0]) {
      forall b
        ensures b in x <==> SomeDemands(cat, chain, want, cs[1..], b)
        ensures b in y <==> SomeDemands(cat, chain, !want, cs[1..], b)
      {
        NeedsExactly(cat, chain, want, cs[1..], b);
        NeedsExactly(cat, chain, !want, cs[1..], b);
      }
      SharedExactly(cat, chain, want, cs[0], k, x, y, b => SomeDemands(cat, chain, want, cs[1..], b),
                    b => SomeDemands(cat, chain, !want, cs[1..], b), a);
    } else {
      SharedExactlyArgs(cat, chain, want, cs[1..], k - Junctions(cs[0]), a);
    }
  }

  // ----- which lists are still growing -----

  /** A list ends where the one being collected for the same value ends, or the opposite one, or neither. */
  datatype Fate = Same | Other | Closed

  function Flip(fs: seq<Fate>): (r: seq<Fate>)
    ensures |r| == |fs|
    ensures forall i :: 0 <= i < |fs| ==> r[i] == if fs[i].Same? then Other else if fs[i].Other? then Same else Closed
  {
    seq(|fs|, i requires 0 <= i < |fs| => if fs[i].Same? then Other else if fs[i].Other? then Same else Closed)
  }

  function Fates(cat: Catalog, chain: Chain, want: bool, c: Cond): seq<Fate>
    requires WellScoped(cat, chain, c)
    decreases c
  {
    match c
    case And(cs) => AllClosed(JunctionsOf(cs)) + [if Needed(cat, chain, want, c) == [] then Closed else Same]
    case Or(cs) => AllClosed(JunctionsOf(cs)) + [if Needed(cat, chain, want, c) == [] then Closed else Same]
    case Not(a) => Flip(Fates(cat, chain, want, a))
    case Exists(rels, q) => Fates(cat, [ScopeOf(cat, rels)] + chain, want, q)
    case _ => []
  }

  function AllClosed(n: nat): (fs: seq<Fate>)
    ensures |fs| == n && forall i :: 0 <= i < n ==> fs[i] == Closed
  {
    seq(n, i => Closed)
  }

  function After(f: Fate, same: seq<Attr>, other: seq<Attr>): seq<Attr> {
    match f
    case Same => same
    case Other => other
    case Closed => []
  }

  /** Every list is continued by what is appended to the accumulator it ends with. */
  ghost predicate ContinuedBy(ls: seq<seq<Attr>>, ls': seq<seq<Attr>>, fs: seq<Fate>, same: seq<Attr>,
                              other: seq<Attr>) {
    |ls'| == |ls| == |fs| && forall i :: 0 <= i < |fs| ==> ls'[i] == ls[i] + After(fs[i], same, other)
  }

  lemma {:induction false} SharedByFate(cat: Catalog, chain: Chain, want: bool, c: Cond, same: seq<Attr>,
                                        other: seq<Attr>)
    requires WellScoped(cat, chain, c)
    ensures ContinuedBy(Shared(cat, chain, want, c, [], []), Shared(cat, chain, want, c, same, other),
                        Fates(cat, chain, want, c), same, other)
    decreases c
  {
    match c
    case And(cs) => JunctionByFate(cat, chain, want, c, cs, same, other);
    case Or(cs) => JunctionByFate(cat, chain, want, c, cs, same, other);
    case Not(a) => SharedByFate(cat, chain, want, a, other, same);
    case Exists(rels, q) => SharedByFate(cat, [ScopeOf(cat, rels)] + chain, want, q, same, other);
    case _ =>
  }

  lemma JunctionByFate(cat: Catalog, chain: Chain, want: bool, c: Cond, cs: seq<Cond>, same: seq<Attr>,
                       other: seq<Attr>)
    requires WellScoped(cat, chain, c) && (c == And(cs) || c == Or(cs))
    ensures ContinuedBy(Shared(cat, chain, want, c, [], []), Shared(cat, chain, want, c, same, other),
                        Fates(cat, chain, want, c), same, other)
  {
    SharedOfCount(cat, chain, want, cs);
    LastContinued(SharedOf(cat, chain, want, cs), Needed(cat, chain, want, c), same, other);
  }

  lemma LastContinued(inner: seq<seq<Attr>>, l: seq<Attr>, same: seq<Attr>, other: seq<Attr>)
    ensures ContinuedBy(inner + [Grown(l, [])], inner + [Grown(l, same)],
                        AllClosed(|inner|) + [if l == [] then Closed else Same], same, other)
  {
    assert Grown(l, []) == l;
    assert forall i :: 0 <= i < |inner| ==> inner[i] + [] == inner[i];
  }

  /** A condition that is its only AND or OR has its own list. */
  lemma OneNode(cat: Catalog, chain: Chain, want: bool, c: Cond)
    requires WellScoped(cat, chain, c) && (c.And? || c.Or?) && Junctions(c) == 1
    ensures Shared(cat, chain, want, c, [], []) == [Needed(cat, chain, want, c)]
  {
    SharedCount(cat, chain, want, c, [], []);
    assert Grown(Needed(cat, chain, want, c), []) == Needed(cat, chain, want, c);
  }

  // ----- when nothing is added -----

  /** No list that is not empty is followed by anything before its enclosing node is complete. */
  predicate Quiet(cat: Catalog, chain: Chain, want: bool, c: Cond, same: seq<Attr>, other: seq<Attr>)
    requires WellScoped(cat, chain, c)
    decreases c
  {
    match c
    case And(cs) => QuietOf(cat, chain, want, cs) && (Needed(cat, chain, want, c) == [] || same == [])
    case Or(cs) => QuietOf(cat, chain, want, cs) && (Needed(cat, chain, want, c) == [] || same == [])
    case Not(a) => Quiet(cat, chain, want, a, other, same)
    case Exists(rels, q) => Quiet(cat, [ScopeOf(cat, rels)] + chain, want, q, same, other)
    case _ => true
  }

  predicate QuietOf(cat: Catalog, chain: Chain, want: bool, cs: seq<Cond>)
    requires forall i :: 0 <= i < |cs| ==> WellScoped(cat, chain, cs[i])
    decreases cs
  {
    cs == [] ||
    (Quiet(cat, chain, want, cs[0], Needs(cat, chain, want, cs[1..]), Needs(cat, chain, !want, cs[1..])) &&
     QuietOf(cat, chain, want, cs[1..]))
  }

  lemma ConcatSame<T>(a: seq<T>, b: seq<T>, a': seq<T>, b': seq<T>)
    requires |a| == |a'|
    ensures a + b == a' + b' <==> a == a' && b == b'
  {
    if a + b == a' + b' {
      assert a == (a + b)[..|a|] == a' && b == (a + b)[|a|..] == b';
    }
  }

  /** The second pass finds exactly the inferred lists, if and only if nothing follows a list that is not empty. */
  lemma {:induction false} UnsharedExactly(cat: Catalog, chain: Chain, want: bool, c: Cond, same: seq<Attr>,
                                           other: seq<Attr>)
    requires WellScoped(cat, chain, c)
    ensures Shared(cat, chain, want, c, same, other) == Lists(cat, chain, want, c) <==>
      Quiet(cat, chain, want, c, same, other)
    decreases c
  {
    match c
    case And(cs) => UnsharedNode(cat, chain, want, c, cs, same);
    case Or(cs) => UnsharedNode(cat, chain, want, c, cs, same);
    case Not(a) => UnsharedExactly(cat, chain, want, a, other, same);
    case Exists(rels, q) => UnsharedExactly(cat, [ScopeOf(cat, rels)] + chain, want, q, same, other);
    case _ =>
  }

  lemma {:induction false} UnsharedNode(cat: Catalog, chain: Chain, want: bool, c: Cond, cs: seq<Cond>, same: seq<Attr>)
    requires (c == And(cs) || c == Or(cs)) && WellScoped(cat, chain, c)
    ensures
      (SharedOf(cat, chain, want, cs) + [Grown(Needed(cat, chain, want, c), same)] == Lists(cat, chain, want, c)) <==>
      (QuietOf(cat, chain, want, cs) && (Needed(cat, chain, want, c) == [] || same == []))
    decreases c, 0
  {
    var needed := Needed(cat, chain, want, c);
    UnsharedArgs(cat, chain, want, cs);
    SharedOfCount(cat, chain, want, cs);
    ListsOfCount(cat, chain, want, cs);
    ConcatSame(SharedOf(cat, chain, want, cs), [Grown(needed, same)], ListsOf(cat, chain, want, cs), [needed]);
    assert [Grown(needed, same)] == [needed] <==> Grown(needed, same) == needed;
    assert |needed + same| == |needed| + |same| && needed + [] == needed;
  }

  lemma {:induction false} UnsharedArgs(cat: Catalog, chain: Chain, want: bool, cs: seq<Cond>)
    requires forall i :: 0 <= i < |cs| ==> WellScoped(cat, chain, cs[i])
    ensures SharedOf(cat, chain, want, cs) == ListsOf(cat, chain, want, cs) <==> QuietOf(cat, chain, want, cs)
    decreases cs
  {
    if cs != [] {
      var x, y := Needs(cat, chain, want, cs[1..]), Needs(cat, chain, !want, cs[1..]);
      UnsharedExactly(cat, chain, want, cs[0], x, y);
      UnsharedArgs(cat, chain, want, cs[1..]);
      SharedCount(cat, chain, want, cs[0], x, y);
      ListsCount(cat, chain, want, cs[0]);
      ConcatSame(Shared(cat, chain, want, cs[0], x, y), SharedOf(cat, chain, want, cs[1..]),
                 Lists(cat, chain, want, cs[0]), ListsOf(cat, chain, want, cs[1..]));
    }
  }
}
