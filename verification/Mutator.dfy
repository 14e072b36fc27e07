/**
 The mutator of the post-parse hook: it walks a condition with a mutable context, flips a polarity
 flag at every NOT, and puts IS NULL tests in front of the comparisons met at negative polarity.
 */
module Mutator {
  import opened Sql
  import opened Completions
  import TrueVar

  /** Operator identifiers that set the "ready" flag: <>, int84 =, text =, >, >=, <=, <, LIKE. */
  const LISTED: set<nat> := {518, 416, 98, 521, 525, 523, 97, 1209}

  /** int4 equality, which is not among them. */
  const INT4_EQ: nat := 96

  /** What the first pass leaves for the mutator: one list per AND/OR node, one scope chain per query. */
  datatype Script = Script(listTrue: seq<seq<Attr>>, listFalse: seq<seq<Attr>>, trueVars: seq<Chain>)

  datatype Context = Context(
    positive: bool,
    ready: bool,
    toAdd: seq<Cond>,        // IS NULL tests waiting for a comparison
    notNull: seq<Attr>,      // attributes whose test is skipped
    at: nat,                 // AND/OR nodes visited
    trueVar: Chain,          // scope chain of the query being walked
    atQuery: nat)            // queries visited

  // ----- what the first pass records -----

  function Junctions(c: Cond): nat
    decreases c
  {
    match c
    case And(cs) => 1 + JunctionsOf(cs)
    case Or(cs) => 1 + JunctionsOf(cs)
    case Not(a) => Junctions(a)
    case Exists(_, q) => Junctions(q)
    case _ => 0
  }

  function JunctionsOf(cs: seq<Cond>): nat
    decreases cs
  {
    if cs == [] then 0 else Junctions(cs[0]) + JunctionsOf(cs[1..])
  }

  /** The scope chains of the subqueries of c, in the order of a pre-order walk. */
  function Chains(cat: Catalog, chain: Chain, c: Cond): seq<Chain>
    decreases c
  {
    match c
    case And(cs) => ChainsOf(cat, chain, cs)
    case Or(cs) => ChainsOf(cat, chain, cs)
    case Not(a) => Chains(cat, chain, a)
    case Exists(rels, q) => var inner := [ScopeOf(cat, rels)] + chain; [inner] + Chains(cat, inner, q)
    case _ => []
  }

  function ChainsOf(cat: Catalog, chain: Chain, cs: seq<Cond>): seq<Chain>
    decreases cs
  {
    if cs == [] then [] else Chains(cat, chain, cs[0]) + ChainsOf(cat, chain, cs[1..])
  }

  // ----- the mutator as a function of its context -----

  predicate Skipped(st: Context, t: Term) {
    InScope(st.trueVar, t) && t.Column? && AttrOf(st.trueVar, t) in st.notNull
  }

  function NullTests(st: Context, ts: seq<Term>): seq<Cond> {
    if ts == [] then []
    else (if ts[0].Column? && !Skipped(st, ts[0]) then [IsNull(ts[0])] else []) + NullTests(st, ts[1..])
  }

  function NthOr(lists: seq<seq<Attr>>, i: int): seq<Attr> {
    if 0 <= i < |lists| then lists[i] else []
  }

  function EnterJunction(s: Script, st: Context): Context {
    st.(notNull := st.notNull + NthOr(if st.positive then s.listTrue else s.listFalse, |s.listTrue| - st.at - 1),
        at := st.at + 1)
  }

  function EnterQuery(s: Script, st: Context): Context {
    st.(trueVar := if st.atQuery < |s.trueVars| then s.trueVars[st.atQuery] else [],
        atQuery := st.atQuery + 1)
  }

  /** An operator call; with tests waiting at positive polarity its arguments are walked twice. */
  function MutateCompare(st: Context, c: Cond): (Cond, Context)
    requires c.Compare?
  {
    var st := st.(ready := st.ready || (!st.positive && c.op in LISTED));
    var waiting := if st.ready then st.toAdd + NullTests(st, c.terms) else st.toAdd;
    if waiting == [] then (c, st)
    else if !st.positive then (Or(waiting + [c]), st.(toAdd := [], ready := false))
    else (c, st.(toAdd := if st.ready then waiting + NullTests(st, c.terms) else waiting))
  }

  function Mutate(s: Script, st: Context, c: Cond): (out: (Cond, Context))
    ensures var st' := out.1; st'.positive == st.positive && st'.notNull == st.notNull && st'.trueVar == st.trueVar
    decreases c
  {
    match c
    case Absent => (c, st)
    case Compare(_, _) => MutateCompare(st, c)
    case IsNull(t) => (c, if st.ready then st.(toAdd := st.toAdd + NullTests(st, [t])) else st)
    case And(cs) =>
      var (rs, st1) := MutateArgs(s, EnterJunction(s, st), cs);
      (And(rs), st1.(notNull := st.notNull))
    case Or(cs) =>
      var (rs, st1) := MutateArgs(s, EnterJunction(s, st), cs);
      (Or(rs), st1.(notNull := st.notNull))
    case Not(a) =>
      var (r, st1) := Mutate(s, st.(positive := !st.positive), a);
      (Not(r), st1.(positive := !st1.positive))
    case Exists(rels, q) =>
      var (r, st1) := Mutate(s, EnterQuery(s, st), q);
      (Exists(rels, r), st1.(trueVar := st.trueVar))
  }

  function MutateArgs(s: Script, st: Context, cs: seq<Cond>): (out: (seq<Cond>, Context))
    ensures |out.0| == |cs|
    ensures var st' := out.1; st'.positive == st.positive && st'.notNull == st.notNull && st'.trueVar == st.trueVar
    decreases cs
  {
    if cs == [] then ([], st)
    else
      var (r, st1) := Mutate(s, st, cs[0]);
      var (rs, st2) := MutateArgs(s, st1, cs[1..]);
      ([r] + rs, st2)
  }

  // ----- invariants of the walk -----

  /** Skipped attributes are declared NOT NULL, waiting tests are IS NULL tests. */
  ghost predicate Sane(cat: Catalog, s: Script, st: Context) {
    && (forall a :: a in st.notNull ==> a in cat.notNull)
    && (forall i, a :: 0 <= i < |s.listTrue| && a in s.listTrue[i] ==> a in cat.notNull)
    && (forall i, a :: 0 <= i < |s.listFalse| && a in s.listFalse[i] ==> a in cat.notNull)
    && (forall i :: 0 <= i < |st.toAdd| ==> st.toAdd[i].IsNull?)
  }

  /** The chains still to be consumed start with those of c. */
  ghost predicate Paired(cat: Catalog, s: Script, st: Context, c: Cond) {
    st.atQuery <= |s.trueVars| && Chains(cat, st.trueVar, c) <= s.trueVars[st.atQuery..]
  }

  ghost predicate PairedArgs(cat: Catalog, s: Script, st: Context, cs: seq<Cond>) {
    st.atQuery <= |s.trueVars| && ChainsOf(cat, st.trueVar, cs) <= s.trueVars[st.atQuery..]
  }

  /** A comparison met at negative polarity has a listed operator or no column that may be null. */
  predicate Covered(cat: Catalog, positive: bool, chain: Chain, c: Cond)
    decreases c
  {
    match c
    case Compare(op, ts) =>
      positive || op in LISTED || forall i :: 0 <= i < |ts| && ts[i].Column? ==> KnownNotNull(chain, cat.notNull, ts[i])
    case And(cs) => forall i :: 0 <= i < |cs| ==> Covered(cat, positive, chain, cs[i])
    case Or(cs) => forall i :: 0 <= i < |cs| ==> Covered(cat, positive, chain, cs[i])
    case Not(a) => Covered(cat, !positive, chain, a)
    case Exists(rels, q) => Covered(cat, positive, [ScopeOf(cat, rels)] + chain, q)
    case _ => true
  }

  lemma {:induction false} NullTestsAll(st: Context, ts: seq<Term>)
    ensures forall i :: 0 <= i < |NullTests(st, ts)| ==> NullTests(st, ts)[i].IsNull?
    ensures forall t :: t in ts && t.Column? && !Skipped(st, t) ==> IsNull(t) in NullTests(st, ts)
  {
    if ts != [] { NullTestsAll(st, ts[1..]); }
  }

  lemma PrefixSplit<T>(a: seq<T>, b: seq<T>, all: seq<T>, k: nat)
    requires k <= |all| && a + b <= all[k..]
    ensures a <= all[k..] && k + |a| <= |all| && b <= all[k + |a|..]
  {
    assert all[k..][|a|..] == all[k + |a|..];
    assert (a + b)[..|a|] == a;
    assert (a + b)[|a|..] == b;
  }

  lemma MutateCompareWeakens(cat: Catalog, s: Script, st: Context, c: Cond)
    requires c.Compare? && Sane(cat, s, st) && Covered(cat, st.positive, st.trueVar, c)
    ensures var (r, st') := MutateCompare(st, c);
      Weakened(cat, st.positive, st.trueVar, c, r) && Sane(cat, s, st')
  {
    var st1 := st.(ready := st.ready || (!st.positive && c.op in LISTED));
    NullTestsAll(st1, c.terms);
    var r := MutateCompare(st, c).0;
    if !st.positive {
      forall t | t in c.terms && t.Column? && !KnownNotNull(st.trueVar, cat.notNull, t)
        ensures r.Or? && IsNull(t) in r.args
      {
        assert st1.ready;
        assert IsNull(t) in NullTests(st1, c.terms);
      }
    }
  }

  /** The mutator weakens its input, whatever "ready" flag and waiting tests it starts from. */
  lemma {:induction false} MutateWeakens(cat: Catalog, s: Script, st: Context, c: Cond)
    requires Sane(cat, s, st) && Paired(cat, s, st, c) && Covered(cat, st.positive, st.trueVar, c)
    requires Supported(cat, st.positive, st.trueVar, c)
    ensures var (r, st') := Mutate(s, st, c);
      && Weakened(cat, st.positive, st.trueVar, c, r)
      && Sane(cat, s, st')
      && st'.atQuery == st.atQuery + |Chains(cat, st.trueVar, c)|
    decreases c
  {
    match c
    case Absent =>
    case Compare(_, _) => MutateCompareWeakens(cat, s, st, c);
    case And(cs) => MutateArgsWeaken(cat, s, EnterJunction(s, st), cs);
    case Or(cs) => MutateArgsWeaken(cat, s, EnterJunction(s, st), cs);
    case Not(a) => MutateWeakens(cat, s, st.(positive := !st.positive), a);
    case Exists(rels, q) =>
      var inner := [ScopeOf(cat, rels)] + st.trueVar;
      PrefixSplit([inner], Chains(cat, inner, q), s.trueVars, st.atQuery);
      assert s.trueVars[st.atQuery..][0] == inner;
      assert EnterQuery(s, st).trueVar == inner;
      MutateWeakens(cat, s, EnterQuery(s, st), q);
  }

  lemma {:induction false} MutateArgsWeaken(cat: Catalog, s: Script, st: Context, cs: seq<Cond>)
    requires Sane(cat, s, st) && PairedArgs(cat, s, st, cs)
    requires forall i ::
      0 <= i < |cs| ==> Covered(cat, st.positive, st.trueVar, cs[i]) && Supported(cat, st.positive, st.trueVar, cs[i])
    ensures var (rs, st') := MutateArgs(s, st, cs);
      && (forall i :: 0 <= i < |cs| ==> Weakened(cat, st.positive, st.trueVar, cs[i], rs[i]))
      && Sane(cat, s, st')
      && st'.atQuery == st.atQuery + |ChainsOf(cat, st.trueVar, cs)|
    decreases cs
  {
    if cs != [] {
      PrefixSplit(Chains(cat, st.trueVar, cs[0]), ChainsOf(cat, st.trueVar, cs[1..]), s.trueVars, st.atQuery);
      MutateWeakens(cat, s, st, cs[0]);
      var (r, st1) := Mutate(s, st, cs[0]);
      MutateArgsWeaken(cat, s, st1, cs[1..]);
    }
  }

  // ----- certain answers of a whole query -----

  /** The elements of the cross product that a query with this FROM list and WHERE clause returns. */
  ghost predicate Returns(ops: Operators, db: Database, rels: seq<nat>, quals: Cond, pick: seq<nat>) {
    Picks(db, rels, pick) && Eval(ops, db, [Picked(db, rels, pick)], quals) == True
  }

  /** The context the hook starts the mutator with, on the top query. */
  function Start(s: Script, known: seq<Attr>): Context {
    EnterQuery(s, Context(true, false, [], known, 0, [], 0))
  }

  /**
   What the hook is for: on a database with nulls, the rewritten query returns a row only if the
   original query returns it under every completion of the nulls.  The skip lists may name any
   attribute that the schema declares NOT NULL.
   */
  lemma RewrittenQueryIsCertain(ops: Operators, cat: Catalog, s: Script, known: seq<Attr>,
                                db: Database, db': Database, rels: seq<nat>, quals: Cond, pick: seq<nat>)
    requires s.trueVars == [[ScopeOf(cat, rels)]] + Chains(cat, [ScopeOf(cat, rels)], quals)
    requires Sane(cat, s, Start(s, known))
    requires Supported(cat, true, [ScopeOf(cat, rels)], quals) && Covered(cat, true, [ScopeOf(cat, rels)], quals)
    requires CompletesDb(db, db') && DbObeys(cat, db)
    requires Returns(ops, db, rels, Mutate(s, Start(s, known), quals).0, pick)
    ensures Returns(ops, db', rels, quals, pick)
  {
    var chain := [ScopeOf(cat, rels)];
    var st := Start(s, known);
    assert s.trueVars[1..] == Chains(cat, chain, quals);
    MutateWeakens(cat, s, st, quals);
    ExtendEnv(cat, db, db', [], [], [], rels, pick);
    assert [ScopeOf(cat, rels)] + [] == chain;
    assert [Picked(db, rels, pick)] + [] == [Picked(db, rels, pick)];
    assert [Picked(db', rels, pick)] + [] == [Picked(db', rels, pick)];
    WeakenedSound(ops, cat, db, db', chain, [Picked(db, rels, pick)], [Picked(db', rels, pick)], true, quals,
                  Mutate(s, st, quals).0);
  }

  // ----- the mutator as it runs: a context whose fields are saved, overwritten and restored -----

  ghost predicate InRange(s: Script, st: Context, c: Cond) {
    |s.listTrue| == |s.listFalse| && st.at + Junctions(c) <= |s.listTrue|
  }

  lemma {:induction false} MutateCounts(s: Script, st: Context, c: Cond)
    ensures Mutate(s, st, c).1.at == st.at + Junctions(c)
    decreases c
  {
    match c
    case And(cs) => MutateArgsCount(s, EnterJunction(s, st), cs);
    case Or(cs) => MutateArgsCount(s, EnterJunction(s, st), cs);
    case Not(a) => MutateCounts(s, st.(positive := !st.positive), a);
    case Exists(_, q) => MutateCounts(s, EnterQuery(s, st), q);
    case _ =>
  }

  lemma {:induction false} MutateArgsCount(s: Script, st: Context, cs: seq<Cond>)
    ensures MutateArgs(s, st, cs).1.at == st.at + JunctionsOf(cs)
    decreases cs
  {
    if cs != [] {
      MutateCounts(s, st, cs[0]);
      MutateArgsCount(s, Mutate(s, st, cs[0]).1, cs[1..]);
    }
  }

  class ContextModifier {
    const script: Script
    var positive: bool
    var ready: bool
    var toAdd: seq<Cond>
    var notNull: seq<Attr>
    var at: nat
    var trueVar: Chain
    var atQuery: nat

    constructor (script: Script, known: seq<Attr>)
      ensures this.script == script
      ensures State() == Context(true, false, [], known, 0, [], 0)
    {
      this.script := script;
      positive, ready, toAdd, notNull, at, trueVar, atQuery := true, false, [], known, 0, [], 0;
    }

    function State(): Context
      reads this
    {
      Context(positive, ready, toAdd, notNull, at, trueVar, atQuery)
    }

    /** The arguments of an operator or of an IS NULL test: a column may leave a test waiting. */
    method MutateTerms(ts: seq<Term>)
      requires forall i :: 0 <= i < |ts| ==> InScope(trueVar, ts[i])
      modifies this`toAdd
      ensures toAdd == if ready then old(toAdd) + NullTests(old(State()), ts) else old(toAdd)
    {
      ghost var st := State();
      var i := 0;
      while i < |ts|
        invariant 0 <= i <= |ts|
        invariant ready ==> toAdd + NullTests(st, ts[i..]) == old(toAdd) + NullTests(st, ts)
        invariant !ready ==> toAdd == old(toAdd)
      {
        if ready && ts[i].Column? {
          var rv := TrueVar.GetTrueVar(trueVar, ts[i]);
          var skip := TrueVar.IsInListTrueVar(notNull, rv);
          if !skip { toAdd := toAdd + [IsNull(ts[i])]; }
        }
        i := i + 1;
      }
    }

    method MutateOperator(c: Cond) returns (r: Cond)
      requires c.Compare? && forall i :: 0 <= i < |c.terms| ==> InScope(trueVar, c.terms[i])
      modifies this
      ensures (r, State()) == MutateCompare(old(State()), c)
    {
      if !positive && c.op in LISTED { ready := true; }
      ghost var st := State();
      MutateTerms(c.terms);
      SameTests(st, State(), c.terms);
      if toAdd != [] {
        if !positive {
          r := Or(toAdd + [c]);
          toAdd, ready := [], false;
        } else {
          MutateTerms(c.terms);
          r := c;
        }
      } else {
        r := c;
      }
    }

    method MutateNode(cat: Catalog, c: Cond) returns (r: Cond)
      requires WellScoped(cat, trueVar, c) && Paired(cat, script, State(), c) && InRange(script, State(), c)
      modifies this
      ensures (r, State()) == Mutate(script, old(State()), c)
      ensures atQuery == old(atQuery) + |Chains(cat, old(trueVar), c)|
      decreases c, 1
    {
      match c
      case Absent => r := c;
      case Compare(_, _) => r := MutateOperator(c);
      case IsNull(t) => MutateTerms([t]); r := c;
      case And(cs) => var rs := MutateJunction(cat, c, cs); r := And(rs);
      case Or(cs) => var rs := MutateJunction(cat, c, cs); r := Or(rs);
      case Not(a) =>
        positive := !positive;
        var x := MutateNode(cat, a);
        positive := !positive;
        r := Not(x);
      case Exists(rels, q) =>
        var save := trueVar;
        ghost var inner := [ScopeOf(cat, rels)] + trueVar;
        PrefixSplit([inner], Chains(cat, inner, q), script.trueVars, atQuery);
        assert script.trueVars[atQuery..][0] == inner;
        trueVar, atQuery := script.trueVars[atQuery], atQuery + 1;
        var x := MutateNode(cat, q);
        trueVar := save;
        r := Exists(rels, x);
    }

    method MutateJunction(cat: Catalog, c: Cond, cs: seq<Cond>) returns (rs: seq<Cond>)
      requires c == And(cs) || c == Or(cs)
      requires WellScoped(cat, trueVar, c) && Paired(cat, script, State(), c) && InRange(script, State(), c)
      modifies this
      ensures var (rs', st') := MutateArgs(script, EnterJunction(script, old(State())), cs);
        rs == rs' && State() == st'.(notNull := old(notNull))
      ensures atQuery == old(atQuery) + |ChainsOf(cat, old(trueVar), cs)|
      decreases c, 0
    {
      var save := notNull;
      if positive {
        notNull := notNull + script.listTrue[|script.listTrue| - at - 1];
      } else {
        notNull := notNull + script.listFalse[|script.listTrue| - at - 1];
      }
      at := at + 1;
      rs := MutateList(cat, cs);
      notNull := save;
    }

    method MutateList(cat: Catalog, cs: seq<Cond>) returns (rs: seq<Cond>)
      requires forall i :: 0 <= i < |cs| ==> WellScoped(cat, trueVar, cs[i])
      requires PairedArgs(cat, script, State(), cs)
      requires |script.listTrue| == |script.listFalse| && at + JunctionsOf(cs) <= |script.listTrue|
      modifies this
      ensures (rs, State()) == MutateArgs(script, old(State()), cs)
      ensures atQuery == old(atQuery) + |ChainsOf(cat, old(trueVar), cs)|
      decreases cs
    {
      rs := [];
      if cs != [] {
        PrefixSplit(Chains(cat, trueVar, cs[0]), ChainsOf(cat, trueVar, cs[1..]), script.trueVars, atQuery);
        MutateCounts(script, State(), cs[0]);
        var r := MutateNode(cat, cs[0]);
        var rest := MutateList(cat, cs[1..]);
        rs := [r] + rest;
      }
    }
  }

  /** Which tests are due depends only on the scope chain and on the skip list. */
  lemma SameTests(st: Context, st': Context, ts: seq<Term>)
    requires st'.trueVar == st.trueVar && st'.notNull == st.notNull
    ensures NullTests(st', ts) == NullTests(st, ts)
  {
  }
}
