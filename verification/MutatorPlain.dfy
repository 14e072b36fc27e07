/**
 The rewriting without its moving parts: no flag, no waiting tests, no list and scope taken by a counter;
 and the proof that the mutator computes it whenever no flag is left set.
 */
module MutatorPlain {
  import opened Sql
  import opened Completions
  import opened Mutator
  import MutatorLimits

  /** The list that the AND or OR number at, in pre-order, gets at a polarity. */
  function ListFor(s: Script, positive: bool, at: nat): seq<Attr> {
    var lists := if positive then s.listTrue else s.listFalse;
    if at < |s.listTrue| && |s.listTrue| - 1 - at < |lists| then lists[|s.listTrue| - 1 - at] else []
  }

  /** The columns of a comparison that need a test. */
  function Tested(chain: Chain, skip: set<Attr>, ts: seq<Term>): seq<Term>
    requires forall i :: 0 <= i < |ts| ==> InScope(chain, ts[i])
  {
    if ts == [] then []
    else
      var last := ts[|ts| - 1];
      Tested(chain, skip, ts[..|ts| - 1]) + (if last.Column? && AttrOf(chain, last) !in skip then [last] else [])
  }

  function TestsOf(ts: seq<Term>): (cs: seq<Cond>)
    ensures |cs| == |ts| && forall i :: 0 <= i < |ts| ==> cs[i] == IsNull(ts[i])
  {
    seq(|ts|, i requires 0 <= i < |ts| => IsNull(ts[i]))
  }

  /**
   Listed comparisons at negative polarity get a test in front for every column that is not to be
   skipped; an AND or OR adds its list to what is skipped inside; nothing else changes.
   */
  function Plain(cat: Catalog, s: Script, skip: set<Attr>, positive: bool, chain: Chain, at: nat, c: Cond): Cond
    requires WellScoped(cat, chain, c)
    decreases c
  {
    match c
    case Compare(op, ts) =>
      if positive || op !in LISTED || Tested(chain, skip, ts) == [] then c
      else Or(TestsOf(Tested(chain, skip, ts)) + [c])
    case And(cs) => And(PlainArgs(cat, s, Inside(s, skip, positive, at), positive, chain, at + 1, cs))
    case Or(cs) => Or(PlainArgs(cat, s, Inside(s, skip, positive, at), positive, chain, at + 1, cs))
    case Not(a) => Not(Plain(cat, s, skip, !positive, chain, at, a))
    case Exists(rels, q) => Exists(rels, Plain(cat, s, skip, positive, [ScopeOf(cat, rels)] + chain, at, q))
    case _ => c
  }

  function Inside(s: Script, skip: set<Attr>, positive: bool, at: nat): set<Attr> {
    skip + (set a | a in ListFor(s, positive, at))
  }

  function PlainArgs(cat: Catalog, s: Script, skip: set<Attr>, positive: bool, chain: Chain, at: nat, cs: seq<Cond>)
    : seq<Cond>
    requires forall i :: 0 <= i < |cs| ==> WellScoped(cat, chain, cs[i])
    decreases cs
  {
    if cs == [] then []
    else
      [Plain(cat, s, skip, positive, chain, at, cs[0])] +
      PlainArgs(cat, s, skip, positive, chain, at + Junctions(cs[0]), cs[1..])
  }

  /** Every listed comparison at negative polarity has a column that is tested; there are no IS NULL tests yet. */
  predicate NoLeak(cat: Catalog, s: Script, skip: set<Attr>, positive: bool, chain: Chain, at: nat, c: Cond)
    requires WellScoped(cat, chain, c)
    decreases c
  {
    match c
    case Compare(op, ts) => positive || op !in LISTED || Tested(chain, skip, ts) != []
    case And(cs) => NoLeakArgs(cat, s, Inside(s, skip, positive, at), positive, chain, at + 1, cs)
    case Or(cs) => NoLeakArgs(cat, s, Inside(s, skip, positive, at), positive, chain, at + 1, cs)
    case Not(a) => NoLeak(cat, s, skip, !positive, chain, at, a)
    case Exists(rels, q) => NoLeak(cat, s, skip, positive, [ScopeOf(cat, rels)] + chain, at, q)
    case IsNull(_) => true
    case Absent => true
  }

  predicate NoLeakArgs(cat: Catalog, s: Script, skip: set<Attr>, positive: bool, chain: Chain, at: nat, cs: seq<Cond>)
    requires forall i :: 0 <= i < |cs| ==> WellScoped(cat, chain, cs[i])
    decreases cs
  {
    cs == [] ||
    (NoLeak(cat, s, skip, positive, chain, at, cs[0]) &&
     NoLeakArgs(cat, s, skip, positive, chain, at + Junctions(cs[0]), cs[1..]))
  }

  /** A context between comparisons: nothing waits, and skip is what is skipped. */
  ghost predicate Settled(st: Context, skip: set<Attr>, positive: bool, chain: Chain, at: nat) {
    && MutatorLimits.Clean(st) && st.positive == positive && st.trueVar == chain && st.at == at
    && forall a :: a in st.notNull <==> a in skip
  }

  lemma {:induction false} NullTestsCut(st: Context, ts: seq<Term>, us: seq<Term>)
    ensures NullTests(st, ts + us) == NullTests(st, ts) + NullTests(st, us)
  {
    if ts == [] {
      assert ts + us == us;
    } else {
      NullTestsCut(st, ts[1..], us);
      var head := if ts[0].Column? && !Skipped(st, ts[0]) then [IsNull(ts[0])] else [];
      assert (ts + us)[0] == ts[0] && (ts + us)[1..] == ts[1..] + us;
      assert NullTests(st, ts + us) == head + NullTests(st, ts[1..] + us);
      Regroup(head, NullTests(st, ts[1..]), NullTests(st, us));
    }
  }

  lemma Regroup(a: seq<Cond>, b: seq<Cond>, c: seq<Cond>)
    ensures a + (b + c) == a + b + c
  {
  }

  lemma {:induction false} NullTestsAre(st: Context, skip: set<Attr>, ts: seq<Term>)
    requires (forall i :: 0 <= i < |ts| ==> InScope(st.trueVar, ts[i])) && forall a :: a in st.notNull <==> a in skip
    ensures NullTests(st, ts) == TestsOf(Tested(st.trueVar, skip, ts))
    decreases |ts|
  {
    if ts != [] {
      var n := |ts| - 1;
      NullTestsAre(st, skip, ts[..n]);
      NullTestsCut(st, ts[..n], [ts[n]]);
      assert ts == ts[..n] + [ts[n]];
      assert NullTests(st, [ts[n]][1..]) == [];
    }
  }

  lemma ComparisonIsPlain(cat: Catalog, s: Script, st: Context, skip: set<Attr>, at: nat, c: Cond)
    requires c.Compare? && WellScoped(cat, st.trueVar, c) && Settled(st, skip, st.positive, st.trueVar, at)
    requires NoLeak(cat, s, skip, st.positive, st.trueVar, at, c)
    ensures var (r, st') := MutateCompare(st, c);
      r == Plain(cat, s, skip, st.positive, st.trueVar, at, c) && Settled(st', skip, st.positive, st.trueVar, at)
  {
    if !st.positive && c.op in LISTED {
      var st1 := st.(ready := true);
      NullTestsAre(st1, skip, c.terms);
      var tests := TestsOf(Tested(st.trueVar, skip, c.terms));
      assert [] + tests == tests;
    }
  }

  /** The walk with its flag, waiting tests and counters computes the plain rewriting. */
  lemma {:induction false} MutateIsPlain(cat: Catalog, s: Script, st: Context, skip: set<Attr>, c: Cond)
    requires WellScoped(cat, st.trueVar, c) && Paired(cat, s, st, c)
    requires Settled(st, skip, st.positive, st.trueVar, st.at)
    requires NoLeak(cat, s, skip, st.positive, st.trueVar, st.at, c)
    ensures var (r, st') := Mutate(s, st, c);
      && r == Plain(cat, s, skip, st.positive, st.trueVar, st.at, c)
      && Settled(st', skip, st.positive, st.trueVar, st.at + Junctions(c))
      && st'.atQuery == st.atQuery + |Chains(cat, st.trueVar, c)|
    decreases c
  {
    match c
    case Compare(_, _) => ComparisonIsPlain(cat, s, st, skip, st.at, c);
    case And(cs) => MutateArgsArePlain(cat, s, EnterJunction(s, st), Inside(s, skip, st.positive, st.at), cs);
    case Or(cs) => MutateArgsArePlain(cat, s, EnterJunction(s, st), Inside(s, skip, st.positive, st.at), cs);
    case Not(a) => MutateIsPlain(cat, s, st.(positive := !st.positive), skip, a);
    case Exists(rels, q) =>
      var inner := [ScopeOf(cat, rels)] + st.trueVar;
      PrefixSplit([inner], Chains(cat, inner, q), s.trueVars, st.atQuery);
      assert s.trueVars[st.atQuery..][0] == inner;
      MutateIsPlain(cat, s, EnterQuery(s, st), skip, q);
    case _ =>
  }

  lemma {:induction false} MutateArgsArePlain(cat: Catalog, s: Script, st: Context, skip: set<Attr>, cs: seq<Cond>)
    requires (forall i :: 0 <= i < |cs| ==> WellScoped(cat, st.trueVar, cs[i])) && PairedArgs(cat, s, st, cs)
    requires Settled(st, skip, st.positive, st.trueVar, st.at)
    requires NoLeakArgs(cat, s, skip, st.positive, st.trueVar, st.at, cs)
    ensures var (rs, st') := MutateArgs(s, st, cs);
      && rs == PlainArgs(cat, s, skip, st.positive, st.trueVar, st.at, cs)
      && Settled(st', skip, st.positive, st.trueVar, st.at + JunctionsOf(cs))
      && st'.atQuery == st.atQuery + |ChainsOf(cat, st.trueVar, cs)|
    decreases cs
  {
    if cs != [] {
      PrefixSplit(Chains(cat, st.trueVar, cs[0]), ChainsOf(cat, st.trueVar, cs[1..]), s.trueVars, st.atQuery);
      MutateIsPlain(cat, s, st, skip, cs[0]);
      MutateArgsArePlain(cat, s, Mutate(s, st, cs[0]).1, skip, cs[1..]);
    }
  }
}
