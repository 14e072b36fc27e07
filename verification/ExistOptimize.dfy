/** The walk over a WHERE clause that computes the components, and the renumbering that follows. */
module ExistOptimize {
  import opened Sql
  import opened Components

  // ----- the walk: columns of operators, subqueries left out -----

  function TermEvents(ts: seq<Term>): seq<Event> {
    if ts == [] then []
    else (if ts[0].Column? then [Visit(ts[0].level, ts[0].varno)] else []) + TermEvents(ts[1..])
  }

  function Events(c: Cond): seq<Event>
    decreases c
  {
    match c
    case Compare(_, ts) => TermEvents(ts) + [Reset]
    case IsNull(t) => TermEvents([t])
    case And(cs) => EventsOf(cs)
    case Or(cs) => EventsOf(cs)
    case Not(a) => Events(a)
    case _ => []
  }

  function EventsOf(cs: seq<Cond>): seq<Event>
    decreases cs
  {
    if cs == [] then [] else Events(cs[0]) + EventsOf(cs[1..])
  }

  function Fold(ctx: Context, es: seq<Event>): (ctx': Context)
    requires ctx.current >= -1
    ensures ctx'.current >= -1
    decreases |es|
  {
    if es == [] then ctx else Fold(Step(ctx, es[0]), es[1..])
  }

  lemma {:induction false} FoldConcat(ctx: Context, a: seq<Event>, b: seq<Event>)
    requires ctx.current >= -1
    ensures Fold(ctx, a + b) == Fold(Fold(ctx, a), b)
    decreases |a|
  {
    if a == [] {
      assert a + b == b;
    } else {
      assert (a + b)[1..] == a[1..] + b;
      FoldConcat(Step(ctx, a[0]), a[1..], b);
    }
  }

  /** In every run, whatever its columns, two lists with a relation in common are one list. */
  lemma {:induction false} RunsStayApart(ctx: Context, es: seq<Event>)
    requires Apart(ctx) && ctx.current >= -1
    ensures Apart(Fold(ctx, es))
    decreases |es|
  {
    if es != [] {
      ApartStays(ctx, es[0]);
      RunsStayApart(Step(ctx, es[0]), es[1..]);
    }
  }

  lemma InitialApart(n: nat)
    ensures Apart(Initial(n))
  {
    var comps := Initial(n).comps;
    assert forall k :: 0 <= k < n ==> comps[k] == [k + 1];
  }

  // ----- the graph of a condition -----

  function Nodes(ts: seq<Term>): seq<nat> {
    if ts == [] then []
    else (if ts[0].Column? then [if ts[0].level > 0 then 0 else ts[0].varno] else []) + Nodes(ts[1..])
  }

  /** One link for every operator with two columns; all columns of enclosing queries are node 0. */
  function LinksOf(c: Cond): Edges
    decreases c
  {
    match c
    case Compare(_, ts) => if |Nodes(ts)| == 2 then [(Nodes(ts)[0], Nodes(ts)[1])] else []
    case And(cs) => LinksOfAll(cs)
    case Or(cs) => LinksOfAll(cs)
    case Not(a) => LinksOf(a)
    case _ => []
  }

  function LinksOfAll(cs: seq<Cond>): Edges
    decreases cs
  {
    if cs == [] then [] else LinksOf(cs[0]) + LinksOfAll(cs[1..])
  }

  /** Operators with at most two columns, relations in range, no column outside an operator. */
  predicate Joins(c: Cond, n: nat) {
    match c
    case Compare(_, ts) =>
      |Nodes(ts)| <= 2 && forall i :: 0 <= i < |ts| && ts[i].Column? && ts[i].level == 0 ==> 1 <= ts[i].varno <= n
    case IsNull(t) => t.Literal?
    case And(cs) => forall i :: 0 <= i < |cs| ==> Joins(cs[i], n)
    case Or(cs) => forall i :: 0 <= i < |cs| ==> Joins(cs[i], n)
    case Not(a) => Joins(a, n)
    case _ => true
  }

  lemma {:induction false} TermEventsMatch(ts: seq<Term>, n: nat)
    requires forall i :: 0 <= i < |ts| && ts[i].Column? && ts[i].level == 0 ==> 1 <= ts[i].varno <= n
    ensures |TermEvents(ts)| == |Nodes(ts)|
    ensures forall k :: 0 <= k < |Nodes(ts)| ==>
      TermEvents(ts)[k].Visit? && InRange(TermEvents(ts)[k], n) && Node(TermEvents(ts)[k]) == Nodes(ts)[k]
  {
    if ts != [] { TermEventsMatch(ts[1..], n); }
  }

  /** An operator, from a context where none is open. */
  lemma OperatorKeeps(ctx: Context, n: nat, edges: Edges, first: nat, ts: seq<Term>) returns (first': nat)
    requires Inv(ctx, n, edges, first) && ctx.current == -1 && Joins(Compare(0, ts), n)
    ensures var ctx' := Fold(ctx, TermEvents(ts) + [Reset]);
      Inv(ctx', n, edges + LinksOf(Compare(0, ts)), first') && ctx'.current == -1
  {
    TermEventsMatch(ts, n);
    var es := TermEvents(ts);
    FoldConcat(ctx, es, [Reset]);
    first' := first;
    var links := LinksOf(Compare(0, ts));
    if |es| == 0 {
      assert edges + links == edges;
    } else {
      StepKeeps(ctx, n, edges, first, es[0]);
      var ctx1 := Step(ctx, es[0]);
      first' := Node(es[0]);
      if |es| == 1 {
        assert Fold(ctx, es) == Fold(ctx1, es[1..]) == ctx1;
        assert edges + links == edges;
      } else {
        StepKeeps(ctx1, n, edges, first', es[1]);
        assert es[1..][0] == es[1] && es[1..][1..] == [];
        assert Fold(ctx, es) == Fold(ctx1, es[1..]) == Step(ctx1, es[1]);
        assert links == [(first', Node(es[1]))];
      }
    }
    var mid := Fold(ctx, es);
    assert Fold(mid, [Reset]) == Step(mid, Reset) by { assert [Reset][1..] == []; }
    StepKeeps(mid, n, edges + links, first', Reset);
  }

  lemma {:induction false} WalkKeeps(ctx: Context, n: nat, edges: Edges, first: nat, c: Cond) returns (first': nat)
    requires Inv(ctx, n, edges, first) && ctx.current == -1 && Joins(c, n)
    ensures var ctx' := Fold(ctx, Events(c)); Inv(ctx', n, edges + LinksOf(c), first') && ctx'.current == -1
    decreases c
  {
    first' := first;
    match c {
      case Compare(_, ts) => first' := OperatorKeeps(ctx, n, edges, first, ts);
      case IsNull(t) => assert TermEvents([t]) == [] by { assert [t][1..] == []; } assert edges + LinksOf(c) == edges;
      case And(cs) => first' := WalkAllKeeps(ctx, n, edges, first, cs);
      case Or(cs) => first' := WalkAllKeeps(ctx, n, edges, first, cs);
      case Not(a) => first' := WalkKeeps(ctx, n, edges, first, a);
      case _ => assert edges + LinksOf(c) == edges;
    }
  }

  lemma {:induction false} WalkAllKeeps(ctx: Context, n: nat, edges: Edges, first: nat, cs: seq<Cond>)
    returns (first': nat)
    requires Inv(ctx, n, edges, first) && ctx.current == -1 && forall i :: 0 <= i < |cs| ==> Joins(cs[i], n)
    ensures var ctx' := Fold(ctx, EventsOf(cs)); Inv(ctx', n, edges + LinksOfAll(cs), first') && ctx'.current == -1
    decreases cs
  {
    first' := first;
    if cs == [] {
      assert edges + LinksOfAll(cs) == edges;
    } else {
      FoldConcat(ctx, Events(cs[0]), EventsOf(cs[1..]));
      first' := WalkKeeps(ctx, n, edges, first, cs[0]);
      first' := WalkAllKeeps(Fold(ctx, Events(cs[0])), n, edges + LinksOf(cs[0]), first', cs[1..]);
      assert edges + LinksOf(cs[0]) + LinksOfAll(cs[1..]) == edges + LinksOfAll(cs);
    }
  }

  lemma InitialInv(n: nat)
    ensures Inv(Initial(n), n, [], 0)
  {
    var ctx := Initial(n);
    var gs := Groups(ctx);
    assert gs[0] == [0];
    assert forall k :: 1 <= k <= n ==> gs[k] == [k];
    assert forall g :: g in gs ==> exists k :: 0 <= k <= n && g == [k];
    forall v: nat | v <= n ensures InSome(gs, v) { assert gs[v] == [v]; assert v in gs[v]; }
    forall i: nat, j: nat | i <= n && j <= n ensures Same(gs, i, j) <==> Connected([], i, j) {
      if i == j { Trivial([], i); assert gs[i] == [i]; assert i in gs[i]; }
      if Connected([], i, j) {
        var p: seq<nat> :| |p| > 0 && p[0] == i && p[|p| - 1] == j && IsPath([], p);
        assert |p| > 1 ==> Adjacent([], p[0], p[0 + 1]);
      }
    }
  }

  /**
   After the walk the lists partition the relations; two relations share a list exactly when the
   links connect them, and the sub level is exactly what is connected to a column of an enclosing query.
   */
  lemma ComponentsExactly(n: nat, c: Cond)
    requires Joins(c, n)
    ensures var ctx := Fold(Initial(n), Events(c));
      && Partition(Groups(ctx), n)
      && (forall i: nat, j: nat ::
        1 <= i <= n && 1 <= j <= n ==> (Same(Groups(ctx), i, j) <==> Connected(LinksOf(c), i, j)))
      && (forall v: nat :: 1 <= v <= n ==> (v in ctx.sub <==> Connected(LinksOf(c), v, 0)))
  {
    InitialInv(n);
    var first := WalkKeeps(Initial(n), n, [], 0, c);
    var ctx := Fold(Initial(n), Events(c));
    assert [] + LinksOf(c) == LinksOf(c);
    forall v: nat | 1 <= v <= n ensures v in ctx.sub <==> Connected(LinksOf(c), v, 0) {
      SubGroup(ctx, n, v);
      assert Same(Groups(ctx), v, 0) <==> Connected(LinksOf(c), v, 0);
    }
  }

  // ----- as it runs -----

  class ContextExists {
    var sub: seq<nat>
    var comps: seq<seq<nat>>
    var current: int
    var varSub: bool
    var failed: bool

    constructor (nbVarno: nat)
      ensures State() == Initial(nbVarno)
    {
      sub, current, varSub, failed := [], -1, false, false;
      var l: seq<seq<nat>> := [];
      for i := 0 to nbVarno
        invariant |l| == i && forall k :: 0 <= k < i ==> l[k] == [k + 1]
      {
        l := l + [[i + 1]];
      }
      comps := l;
    }

    function State(): Context
      reads this
    {
      Context(sub, comps, current, varSub, failed)
    }

    method IsSub(varno: nat) returns (found: bool)
      ensures found <==> varno in sub
    {
      for i := 0 to |sub|
        invariant varno !in sub[..i]
      {
        if sub[i] == varno { return true; }
      }
      return false;
    }

    method ReturnComp(varno: nat) returns (l: seq<nat>)
      ensures l == ReturnList(State(), varno)
    {
      var i := 0;
      while i < |comps|
        invariant 0 <= i <= |comps|
        invariant Find(comps[i..], varno) == Find(comps, varno)
      {
        if varno in comps[i] { return comps[i]; }
        assert comps[i..][1..] == comps[i + 1..];
        i := i + 1;
      }
      var inSub := IsSub(varno);
      l := if inSub then sub else [];
    }

    method RemoveFromList(varno: nat)
      modifies this`comps
      ensures comps == Without(old(comps), varno)
    {
      var result: seq<seq<nat>> := [];
      var i := 0;
      while i < |comps|
        invariant 0 <= i <= |comps| && comps == old(comps)
        invariant result + Without(comps[i..], varno) == Without(comps, varno)
      {
        assert comps[i..][1..] == comps[i + 1..];
        if varno !in comps[i] { result := result + [comps[i]]; }
        i := i + 1;
      }
      comps := result;
    }

    /** list_concat of a list to the sub-level list, in place. */
    method ConcatToSub(a: seq<nat>)
      modifies this`sub, this`comps, this`failed
      ensures failed <==> old(failed) || (a != [] && a == old(sub))
      ensures a == [] || a != old(sub) ==>
        sub == old(sub) + a && comps == Renewed(old(comps), old(sub), old(sub) + a)
      ensures a != [] && a == old(sub) ==> sub == old(sub) && comps == old(comps)
    {
      if a != [] && a == sub {
        failed := true;
      } else {
        comps := Renewed(comps, sub, sub + a);
        sub := sub + a;
      }
    }

    method VisitVar(level: nat, varno: nat)
      requires current >= -1
      modifies this
      ensures State() == Step(old(State()), Visit(level, varno))
    {
      if failed { return; }
      var isSub := IsSub(varno);
      if current == -1 {
        current := varno;
        if level > 0 || isSub { varSub := true; }
        return;
      }
      if varSub && (isSub || level > 0) { return; }
      if varSub && !isSub && level == 0 {
        var b := ReturnComp(varno);
        ConcatToSub(b);
        if !failed { RemoveFromList(varno); }
        return;
      }
      if isSub || level > 0 {
        var a := ReturnComp(current);
        ConcatToSub(a);
        if !failed { RemoveFromList(current); }
        return;
      }
      var a := ReturnComp(current);
      var b := ReturnComp(varno);
      if a == b { return; }
      RemoveFromList(current);
      RemoveFromList(varno);
      if a != [] && a == sub { sub := a + b; }
      comps := comps + [a + b];
    }

    method VisitTerms(ts: seq<Term>)
      requires current >= -1
      modifies this
      ensures current >= -1 && State() == Fold(old(State()), TermEvents(ts))
      decreases |ts|
    {
      if ts != [] {
        if ts[0].Column? {
          VisitVar(ts[0].level, ts[0].varno);
          assert ([Visit(ts[0].level, ts[0].varno)] + TermEvents(ts[1..]))[1..] == TermEvents(ts[1..]);
        } else {
          assert TermEvents(ts) == TermEvents(ts[1..]);
        }
        VisitTerms(ts[1..]);
      }
    }

    method CreateConnexe(c: Cond)
      requires current >= -1
      modifies this
      ensures current >= -1 && State() == Fold(old(State()), Events(c))
      decreases c
    {
      match c
      case Compare(_, ts) =>
        FoldConcat(State(), TermEvents(ts), [Reset]);
        VisitTerms(ts);
        assert Fold(State(), [Reset]) == Step(State(), Reset) by { assert [Reset][1..] == []; }
        if !failed { current, varSub := -1, false; }
      case IsNull(t) => VisitTerms([t]);
      case And(cs) => CreateConnexeAll(cs);
      case Or(cs) => CreateConnexeAll(cs);
      case Not(a) => CreateConnexe(a);
      case _ =>
    }

    method CreateConnexeAll(cs: seq<Cond>)
      requires current >= -1
      modifies this
      ensures current >= -1 && State() == Fold(old(State()), EventsOf(cs))
      decreases cs
    {
      if cs != [] {
        FoldConcat(State(), Events(cs[0]), EventsOf(cs[1..]));
        CreateConnexe(cs[0]);
        CreateConnexeAll(cs[1..]);
      }
    }
  }
}
