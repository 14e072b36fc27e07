/**
 Connected components of the join graph of a subquery.  Relations 1..n of the FROM list start in
 lists of their own; every operator links the relation of its first column to those of its other
 columns, and columns of enclosing queries stand for one more node, the sub level.
 */
module Components {

  /** What the walk meets: a column (varlevelsup, varno), or the end of an operator. */
  datatype Event = Visit(level: nat, varno: nat) | Reset

  /** failed: list_concat raised an error, and the walk stopped there. */
  datatype Context = Context(sub: seq<nat>, comps: seq<seq<nat>>, current: int, varSub: bool, failed: bool)

  // ----- lists -----

  /** The first list that contains v. */
  function Find(comps: seq<seq<nat>>, v: nat): seq<nat> {
    if comps == [] then [] else if v in comps[0] then comps[0] else Find(comps[1..], v)
  }

  /** The lists that do not contain v. */
  function Without(comps: seq<seq<nat>>, v: nat): seq<seq<nat>> {
    if comps == [] then [] else (if v in comps[0] then [] else [comps[0]]) + Without(comps[1..], v)
  }

  function ReturnList(ctx: Context, v: nat): seq<nat> {
    if Find(ctx.comps, v) != [] then Find(ctx.comps, v) else if v in ctx.sub then ctx.sub else []
  }

  function Initial(n: nat): Context {
    Context([], seq(n, i requires 0 <= i < n => [i + 1]), -1, false, false)
  }

  /**
   The lists once l has grown to more in place: whoever holds l holds the grown list.  Lists are
   compared by what they hold, which tells them apart (ApartStays).
   */
  function Renewed(comps: seq<seq<nat>>, l: seq<nat>, more: seq<nat>): seq<seq<nat>> {
    seq(|comps|, i requires 0 <= i < |comps| => if l != [] && comps[i] == l then more else comps[i])
  }

  /** list_concat of a to the sub level, in place: an error when a is the sub level, unless it is empty. */
  function ToSub(ctx: Context, a: seq<nat>, v: nat): Context {
    if a != [] && a == ctx.sub then ctx.(failed := true)
    else ctx.(sub := ctx.sub + a, comps := Without(Renewed(ctx.comps, ctx.sub, ctx.sub + a), v))
  }

  function Step(ctx: Context, e: Event): (ctx': Context)
    requires ctx.current >= -1
    ensures ctx'.current >= -1
  {
    if ctx.failed then ctx else
    match e
    case Reset => ctx.(current := -1, varSub := false)
    case Visit(level, varno) =>
      if ctx.current == -1 then
        ctx.(current := varno, varSub := ctx.varSub || level > 0 || varno in ctx.sub)
      else
        var sub := varno in ctx.sub;
        if ctx.varSub && (sub || level > 0) then ctx
        else if ctx.varSub then ToSub(ctx, ReturnList(ctx, varno), varno)
        else if sub || level > 0 then ToSub(ctx, ReturnList(ctx, ctx.current), ctx.current)
        else
          var a, b := ReturnList(ctx, ctx.current), ReturnList(ctx, varno);
          if a == b then ctx
          else ctx.(comps := Without(Without(ctx.comps, ctx.current), varno) + [a + b],
            sub := if a != [] && a == ctx.sub then a + b else ctx.sub)
  }

  // ----- the graph -----

  /** Node 0 is the sub level. */
  function Node(e: Event): nat
    requires e.Visit?
  {
    if e.level > 0 then 0 else e.varno
  }

  type Edges = seq<(nat, nat)>

  ghost predicate Adjacent(edges: Edges, i: nat, j: nat) {
    (i, j) in edges || (j, i) in edges
  }

  ghost predicate IsPath(edges: Edges, p: seq<nat>) {
    forall k :: 0 <= k < |p| - 1 ==> Adjacent(edges, p[k], p[k + 1])
  }

  /** The reflexive-transitive closure of the links. */
  ghost predicate Connected(edges: Edges, i: nat, j: nat) {
    exists p: seq<nat> :: |p| > 0 && p[0] == i && p[|p| - 1] == j && IsPath(edges, p)
  }

  lemma Joined(edges: Edges, i: nat, j: nat, k: nat)
    requires Connected(edges, i, j) && Connected(edges, j, k)
    ensures Connected(edges, i, k)
  {
    var p: seq<nat> :| |p| > 0 && p[0] == i && p[|p| - 1] == j && IsPath(edges, p);
    var q: seq<nat> :| |q| > 0 && q[0] == j && q[|q| - 1] == k && IsPath(edges, q);
    var r := p + q[1..];
    assert |q| == 1 ==> r == p;
    forall m | 0 <= m < |r| - 1 ensures Adjacent(edges, r[m], r[m + 1]) {
      if m < |p| - 1 { assert r[m] == p[m] && r[m + 1] == p[m + 1]; }
      else { assert r[m] == q[m - |p| + 1] && r[m + 1] == q[m - |p| + 2]; }
    }
    assert IsPath(edges, r);
  }

  lemma Trivial(edges: Edges, i: nat)
    ensures Connected(edges, i, i)
  {
    assert IsPath(edges, [i]);
  }

  lemma Single(edges: Edges, i: nat, j: nat)
    requires Adjacent(edges, i, j)
    ensures Connected(edges, i, j)
  {
    assert IsPath(edges, [i, j]);
  }

  lemma MoreEdges(edges: Edges, a: nat, b: nat, i: nat, j: nat)
    requires Connected(edges, i, j)
    ensures Connected(edges + [(a, b)], i, j)
  {
    var p: seq<nat> :| |p| > 0 && p[0] == i && p[|p| - 1] == j && IsPath(edges, p);
    assert forall k :: 0 <= k < |p| - 1 ==> Adjacent(edges, p[k], p[k + 1]);
    assert IsPath(edges + [(a, b)], p);
  }

  /** Connected through the old links, or across the new one. */
  ghost predicate Across(edges: Edges, a: nat, b: nat, i: nat, j: nat) {
    || Connected(edges, i, j)
    || (Connected(edges, i, a) && Connected(edges, b, j))
    || (Connected(edges, i, b) && Connected(edges, a, j))
  }

  lemma {:induction false} PathAcross(edges: Edges, a: nat, b: nat, p: seq<nat>)
    requires |p| > 0 && IsPath(edges + [(a, b)], p)
    ensures Across(edges, a, b, p[0], p[|p| - 1])
    decreases |p|
  {
    var j := p[|p| - 1];
    if |p| == 1 {
      Trivial(edges, j);
    } else {
      var q := p[1..];
      forall k | 0 <= k < |q| - 1 ensures Adjacent(edges + [(a, b)], q[k], q[k + 1]) {
        assert Adjacent(edges + [(a, b)], p[k + 1], p[k + 2]);
      }
      PathAcross(edges, a, b, q);
      var i, m := p[0], p[1];
      assert Adjacent(edges + [(a, b)], p[0], p[1]);
      Trivial(edges, a);
      Trivial(edges, b);
      if Adjacent(edges, i, m) {
        Single(edges, i, m);
        if Connected(edges, m, j) { Joined(edges, i, m, j); }
        if Connected(edges, m, a) { Joined(edges, i, m, a); }
        if Connected(edges, m, b) { Joined(edges, i, m, b); }
      }
    }
  }

  lemma AddEdge(edges: Edges, a: nat, b: nat, i: nat, j: nat)
    ensures Connected(edges + [(a, b)], i, j) <==> Across(edges, a, b, i, j)
  {
    var more := edges + [(a, b)];
    if Connected(more, i, j) {
      var p: seq<nat> :| |p| > 0 && p[0] == i && p[|p| - 1] == j && IsPath(more, p);
      PathAcross(edges, a, b, p);
    }
    assert more[|edges|] == (a, b);
    Single(more, a, b);
    Single(more, b, a);
    if Connected(edges, i, j) { MoreEdges(edges, a, b, i, j); }
    if Connected(edges, i, a) && Connected(edges, b, j) {
      MoreEdges(edges, a, b, i, a);
      MoreEdges(edges, a, b, b, j);
      Joined(more, i, a, b);
      Joined(more, i, b, j);
    }
    if Connected(edges, i, b) && Connected(edges, a, j) {
      MoreEdges(edges, a, b, i, b);
      MoreEdges(edges, a, b, a, j);
      Joined(more, i, b, a);
      Joined(more, i, a, j);
    }
  }

  // ----- groups: the sub level and the components -----

  function Groups(ctx: Context): seq<seq<nat>> {
    [[0] + ctx.sub] + ctx.comps
  }

  ghost predicate Same(gs: seq<seq<nat>>, i: nat, j: nat) {
    exists g :: g in gs && i in g && j in g
  }

  ghost predicate Distinct<T>(s: seq<T>) {
    forall i, j :: 0 <= i < j < |s| ==> s[i] != s[j]
  }

  ghost predicate InSome(gs: seq<seq<nat>>, v: nat) {
    exists g :: g in gs && v in g
  }

  /** Every node 0..n is in exactly one group, once. */
  ghost predicate Partition(gs: seq<seq<nat>>, n: nat) {
    && Distinct(gs)
    && (forall g :: g in gs ==> |g| > 0 && Distinct(g))
    && (forall g, v :: g in gs && v in g ==> v <= n)
    && (forall v :: 0 <= v <= n ==> InSome(gs, v))
    && (forall g, h, v :: g in gs && h in gs && v in g && v in h ==> g == h)
  }

  lemma {:induction false} WithoutMembers(comps: seq<seq<nat>>, v: nat)
    ensures forall g :: g in Without(comps, v) <==> g in comps && v !in g
    ensures Distinct(comps) ==> Distinct(Without(comps, v))
  {
    if comps != [] {
      WithoutMembers(comps[1..], v);
      var rest := Without(comps[1..], v);
      assert forall g :: g in comps <==> g == comps[0] || g in comps[1..];
      if Distinct(comps) {
        assert Distinct(comps[1..]);
        forall g | g in rest ensures g != comps[0] {
          var k :| 0 <= k < |comps[1..]| && comps[1..][k] == g;
          assert comps[k + 1] == g;
        }
        assert Without(comps, v) == if v in comps[0] then rest else [comps[0]] + rest;
      }
    }
  }

  lemma {:induction false} FindMeans(comps: seq<seq<nat>>, v: nat)
    ensures InSome(comps, v) ==> Find(comps, v) in comps && v in Find(comps, v)
    ensures !InSome(comps, v) ==> Find(comps, v) == []
  {
    if comps != [] {
      FindMeans(comps[1..], v);
      assert forall g :: g in comps <==> g == comps[0] || g in comps[1..];
    }
  }

  /** Two groups of a partition become one, and nothing else changes. */
  ghost predicate Merged(gs: seq<seq<nat>>, gs': seq<seq<nat>>, a: seq<nat>, b: seq<nat>) {
    && a in gs && b in gs && a != b
    && Distinct(gs')
    && forall g :: g in gs' <==> g == a + b || (g in gs && g != a && g != b)
  }

  lemma MergedPartition(gs: seq<seq<nat>>, gs': seq<seq<nat>>, a: seq<nat>, b: seq<nat>, n: nat)
    requires Partition(gs, n) && Merged(gs, gs', a, b)
    ensures Partition(gs', n)
  {
    var ab := a + b;
    assert forall v :: v in ab <==> v in a || v in b;
    assert Distinct(ab) by {
      forall i, j | 0 <= i < j < |ab| ensures ab[i] != ab[j] {
        if i < |a| <= j { assert ab[i] in a && ab[j] in b; }
      }
    }
    forall v: nat | v <= n ensures InSome(gs', v) {
      assert InSome(gs, v);
      var g :| g in gs && v in g;
      if g == a || g == b { assert ab in gs' && v in ab; } else { assert g in gs'; }
    }
  }

  lemma MergedSame(gs: seq<seq<nat>>, gs': seq<seq<nat>>, a: seq<nat>, b: seq<nat>, n: nat, i: nat, j: nat)
    requires Partition(gs, n) && Merged(gs, gs', a, b)
    ensures Same(gs', i, j) <==> Same(gs, i, j) || (i in a && j in b) || (i in b && j in a)
  {
    var ab := a + b;
    assert forall v :: v in ab <==> v in a || v in b;
    assert ab in gs';
    if Same(gs, i, j) {
      var g :| g in gs && i in g && j in g;
      if g != a && g != b { assert g in gs'; }
    }
    if Same(gs', i, j) {
      var g :| g in gs' && i in g && j in g;
      if g == ab { if i in a && j in a { assert Same(gs, i, j); } if i in b && j in b { assert Same(gs, i, j); } }
    }
  }

  // ----- the invariant of the walk -----

  /** The groups are the classes of the closure of the links so far. */
  ghost predicate Closed(ctx: Context, n: nat, edges: Edges) {
    forall i: nat, j: nat :: i <= n && j <= n ==> (Same(Groups(ctx), i, j) <==> Connected(edges, i, j))
  }

  /** first is the node of the first column since the last operator ended. */
  ghost predicate Tracks(ctx: Context, n: nat, first: nat) {
    ctx.current != -1 ==>
      first <= n && ctx.current >= 0 && if ctx.varSub then first == 0 || first in ctx.sub
        else first == ctx.current && first > 0
  }

  ghost predicate Inv(ctx: Context, n: nat, edges: Edges, first: nat) {
    !ctx.failed && ctx.current >= -1 && Partition(Groups(ctx), n) && Closed(ctx, n, edges) && Tracks(ctx, n, first)
    && (ctx.current == -1 ==> !ctx.varSub)
  }

  /** The first column of the operator has not been moved to the sub level by an earlier one of its columns. */
  predicate Safe(ctx: Context, e: Event) {
    e.Visit? && ctx.current != -1 && !ctx.varSub ==> ctx.current !in ctx.sub
  }

  predicate InRange(e: Event, n: nat) {
    e.Visit? && e.level == 0 ==> 1 <= e.varno <= n
  }

  lemma SubGroup(ctx: Context, n: nat, v: nat)
    requires Partition(Groups(ctx), n)
    ensures [0] + ctx.sub in Groups(ctx)
    ensures Same(Groups(ctx), v, 0) <==> v == 0 || v in ctx.sub
    ensures forall g :: g in ctx.comps ==> g in Groups(ctx) && 0 !in g
    ensures 0 !in ctx.sub && Distinct(ctx.comps)
  {
    var gs, g0 := Groups(ctx), [0] + ctx.sub;
    assert gs[0] == g0;
    forall g | g in ctx.comps ensures g in gs && 0 !in g {
      var k :| 0 <= k < |ctx.comps| && ctx.comps[k] == g;
      assert gs[k + 1] == g;
      assert 0 in g0 && gs[0] != gs[k + 1];
    }
    forall i, j | 0 <= i < j < |ctx.comps| ensures ctx.comps[i] != ctx.comps[j] {
      assert gs[i + 1] == ctx.comps[i] && gs[j + 1] == ctx.comps[j];
    }
    assert Distinct(g0);
    forall i | 0 <= i < |ctx.sub| ensures ctx.sub[i] != 0 { assert g0[0] == 0 && g0[i + 1] == ctx.sub[i]; }
    if Same(gs, v, 0) { var g :| g in gs && v in g && 0 in g; assert g == g0; }
  }

  /** A relation outside the sub level is in the list that return_list finds. */
  lemma CompGroup(ctx: Context, n: nat, v: nat)
    requires Partition(Groups(ctx), n) && 1 <= v <= n && v !in ctx.sub
    ensures var a := ReturnList(ctx, v);
      a in ctx.comps && a in Groups(ctx) && v in a && forall j :: Same(Groups(ctx), v, j) <==> j in a
  {
    SubGroup(ctx, n, v);
    var gs := Groups(ctx);
    assert InSome(gs, v);
    var g :| g in gs && v in g;
    assert g != [0] + ctx.sub;
    assert g in ctx.comps;
    assert InSome(ctx.comps, v);
    FindMeans(ctx.comps, v);
    var a := ReturnList(ctx, v);
    assert a in gs;
    forall j ensures Same(gs, v, j) <==> j in a {
      if Same(gs, v, j) { var h :| h in gs && v in h && j in h; assert h == a; }
    }
  }

  /** Moving the list of v to the sub level merges two groups. */
  lemma MoveMerges(ctx: Context, n: nat, v: nat)
    requires Partition(Groups(ctx), n) && 1 <= v <= n && v !in ctx.sub
    ensures var a := ReturnList(ctx, v); var ctx' := ctx.(sub := ctx.sub + a, comps := Without(ctx.comps, v));
      Merged(Groups(ctx), Groups(ctx'), [0] + ctx.sub, a)
  {
    SubGroup(ctx, n, v);
    CompGroup(ctx, n, v);
    WithoutMembers(ctx.comps, v);
    var a := ReturnList(ctx, v);
    var rest := Without(ctx.comps, v);
    var g0 := [0] + ctx.sub;
    var gs, gs' := Groups(ctx), Groups(ctx.(sub := ctx.sub + a, comps := rest));
    assert [0] + (ctx.sub + a) == g0 + a;
    assert gs' == [g0 + a] + rest;
    forall g ensures g in gs' <==> g == g0 + a || (g in gs && g != g0 && g != a) {
      if g in gs && g != g0 && g != a { assert g in ctx.comps; assert v !in g; }
      if g in rest { assert g in gs && 0 !in g && 0 in g0; }
    }
    assert g0 + a !in rest by { assert 0 in g0 + a; }
  }

  /** What is left when the lists of u and v are taken out. */
  lemma PairLeaves(ctx: Context, n: nat, u: nat, v: nat)
    requires Partition(Groups(ctx), n) && 1 <= u <= n && 1 <= v <= n && u !in ctx.sub && v !in ctx.sub
    ensures var rest := Without(Without(ctx.comps, u), v);
      Distinct(rest) &&
      forall g :: g in rest <==> g in ctx.comps && g != ReturnList(ctx, u) && g != ReturnList(ctx, v)
  {
    SubGroup(ctx, n, u);
    CompGroup(ctx, n, u);
    CompGroup(ctx, n, v);
    WithoutMembers(ctx.comps, u);
    WithoutMembers(Without(ctx.comps, u), v);
  }

  /** Merging the lists of u and v. */
  lemma PairMerges(ctx: Context, n: nat, u: nat, v: nat)
    requires Partition(Groups(ctx), n) && 1 <= u <= n && 1 <= v <= n && u !in ctx.sub && v !in ctx.sub
    requires ReturnList(ctx, u) != ReturnList(ctx, v)
    ensures var a, b := ReturnList(ctx, u), ReturnList(ctx, v);
      var ctx' := ctx.(comps := Without(Without(ctx.comps, u), v) + [a + b]);
      Merged(Groups(ctx), Groups(ctx'), a, b)
  {
    SubGroup(ctx, n, u);
    CompGroup(ctx, n, u);
    CompGroup(ctx, n, v);
    PairLeaves(ctx, n, u, v);
    var a, b := ReturnList(ctx, u), ReturnList(ctx, v);
    var rest := Without(Without(ctx.comps, u), v);
    var g0 := [0] + ctx.sub;
    var gs, gs' := Groups(ctx), Groups(ctx.(comps := rest + [a + b]));
    assert gs' == [g0] + rest + [a + b];
    assert 0 in g0 && 0 !in a + b;
    assert u in a + b && forall g :: g in rest ==> u !in g;
    assert forall g :: g in gs <==> g == g0 || g in ctx.comps;
  }

  // ----- one step -----

  /** If two nodes a and b get linked and their groups merged, the groups are again the classes of the closure. */
  lemma MergeCloses(ctx: Context, ctx': Context, n: nat, edges: Edges, a: nat, b: nat, ga: seq<nat>, gb: seq<nat>)
    requires Partition(Groups(ctx), n) && Closed(ctx, n, edges) && a <= n && b <= n
    requires Merged(Groups(ctx), Groups(ctx'), ga, gb)
    requires (a in ga && b in gb) || (a in gb && b in ga)
    ensures Partition(Groups(ctx'), n) && Closed(ctx', n, edges + [(a, b)])
  {
    var gs := Groups(ctx);
    MergedPartition(gs, Groups(ctx'), ga, gb, n);
    forall i: nat, j: nat | i <= n && j <= n
      ensures Same(Groups(ctx'), i, j) <==> Connected(edges + [(a, b)], i, j)
    {
      MergedSame(gs, Groups(ctx'), ga, gb, n, i, j);
      AddEdge(edges, a, b, i, j);
      InGroup(gs, n, a, if a in ga then ga else gb, i);
      InGroup(gs, n, a, if a in ga then ga else gb, j);
      InGroup(gs, n, b, if a in ga then gb else ga, i);
      InGroup(gs, n, b, if a in ga then gb else ga, j);
    }
  }

  lemma InGroup(gs: seq<seq<nat>>, n: nat, a: nat, g: seq<nat>, i: nat)
    requires Partition(gs, n) && g in gs && a in g
    ensures Same(gs, a, i) <==> i in g
    ensures Same(gs, i, a) <==> i in g
  {
    if Same(gs, a, i) { var h :| h in gs && a in h && i in h; assert h == g; }
  }

  /** Linking two nodes of one group changes nothing. */
  lemma SameStays(ctx: Context, n: nat, edges: Edges, a: nat, b: nat)
    requires Partition(Groups(ctx), n) && Closed(ctx, n, edges) && a <= n && b <= n && Same(Groups(ctx), a, b)
    ensures Closed(ctx, n, edges + [(a, b)])
  {
    assert Connected(edges, a, b);
    assert Same(Groups(ctx), b, a);
    assert Connected(edges, b, a);
    forall i: nat, j: nat | i <= n && j <= n
      ensures Same(Groups(ctx), i, j) <==> Connected(edges + [(a, b)], i, j)
    {
      AddEdge(edges, a, b, i, j);
      if Connected(edges, i, a) && Connected(edges, b, j) { Joined(edges, i, a, b); Joined(edges, i, b, j); }
      if Connected(edges, i, b) && Connected(edges, a, j) { Joined(edges, i, b, a); Joined(edges, i, a, j); }
    }
  }

  /** The links after one more event, and the first column since the last operator ended. */
  function NextEdges(ctx: Context, edges: Edges, first: nat, e: Event): Edges {
    if e.Visit? && ctx.current != -1 then edges + [(first, Node(e))] else edges
  }

  function NextFirst(ctx: Context, first: nat, e: Event): nat {
    if e.Visit? && ctx.current == -1 then Node(e) else first
  }

  /** A later column of an operator. */
  lemma VisitKeeps(ctx: Context, n: nat, edges: Edges, first: nat, e: Event)
    requires Inv(ctx, n, edges, first) && e.Visit? && ctx.current != -1 && Safe(ctx, e) && InRange(e, n)
    ensures Inv(Step(ctx, e), n, edges + [(first, Node(e))], first)
  {
    var x := Node(e);
    SubGroup(ctx, n, x);
    SubGroup(ctx, n, first);
    var g0 := [0] + ctx.sub;
    var ctx' := Step(ctx, e);
    NotShared(ctx, n);
    if ctx.varSub {
      assert first in g0;
      if e.varno in ctx.sub || e.level > 0 {
        assert x in g0;
        SameStays(ctx, n, edges, first, x);
      } else {
        CompGroup(ctx, n, x);
        MoveMerges(ctx, n, x);
        MergeCloses(ctx, ctx', n, edges, first, x, g0, ReturnList(ctx, x));
      }
    } else if e.varno in ctx.sub || e.level > 0 {
      assert x in g0;
      CompGroup(ctx, n, first);
      MoveMerges(ctx, n, first);
      MergeCloses(ctx, ctx', n, edges, first, x, g0, ReturnList(ctx, first));
    } else {
      CompGroup(ctx, n, first);
      CompGroup(ctx, n, x);
      if ReturnList(ctx, first) == ReturnList(ctx, x) {
        SameStays(ctx, n, edges, first, x);
      } else {
        PairMerges(ctx, n, first, x);
        MergeCloses(ctx, ctx', n, edges, first, x, ReturnList(ctx, first), ReturnList(ctx, x));
      }
    }
  }

  lemma StepKeeps(ctx: Context, n: nat, edges: Edges, first: nat, e: Event)
    requires Inv(ctx, n, edges, first) && Safe(ctx, e) && InRange(e, n)
    ensures Inv(Step(ctx, e), n, NextEdges(ctx, edges, first, e), NextFirst(ctx, first, e))
  {
    if e.Visit? && ctx.current != -1 {
      VisitKeeps(ctx, n, edges, first, e);
    } else {
      assert Groups(Step(ctx, e)) == Groups(ctx);
    }
  }

  /**
   Visiting a column while the first one has been moved to the sub level fails when that column is at the
   sub level too, and leaves the relation in two lists when it is not.
   */
  lemma StepKeepsExactly(ctx: Context, n: nat, edges: Edges, first: nat, e: Event)
    requires Inv(ctx, n, edges, first) && InRange(e, n)
    ensures !Step(ctx, e).failed && Partition(Groups(Step(ctx, e)), n) <==> Safe(ctx, e)
    ensures Step(ctx, e).failed <==> !Safe(ctx, e) && (e.varno in ctx.sub || e.level > 0)
  {
    if Safe(ctx, e) {
      StepKeeps(ctx, n, edges, first, e);
    } else {
      NotInComps(ctx, n, ctx.current);
      if e.varno !in ctx.sub && e.level == 0 { InTwoLists(ctx, Step(ctx, e), n, e.varno); }
    }
  }

  lemma InTwoLists(ctx: Context, ctx': Context, n: nat, v: nat)
    requires Partition(Groups(ctx), n) && ctx.current in ctx.sub && 1 <= v <= n && v !in ctx.sub
    requires ctx.sub != ReturnList(ctx, v) ==>
      ctx'.sub == ctx.sub + ReturnList(ctx, v) && ctx'.comps != [] && ctx'.comps[|ctx'.comps| - 1] == ctx'.sub
    ensures !Partition(Groups(ctx'), n)
  {
    CompGroup(ctx, n, v);
    SubGroup(ctx, n, v);
    SubNotComp(ctx, n);
    var g0, ab := [0] + ctx'.sub, ctx'.sub;
    var gs' := Groups(ctx');
    assert gs'[0] == g0 && gs'[|gs'| - 1] == ab;
    assert g0 in gs' && ab in gs';
    assert ctx.current in ab && ctx.current in g0;
    assert g0 != ab;
  }

  lemma SubNotComp(ctx: Context, n: nat)
    requires Partition(Groups(ctx), n) && ctx.sub != []
    ensures ctx.sub !in ctx.comps
  {
    SubGroup(ctx, n, 0);
    assert ctx.sub[0] in [0] + ctx.sub;
    assert 0 in [0] + ctx.sub;
  }

  /** In a partition no component is the sub-level list, so that list grows alone. */
  lemma NotShared(ctx: Context, n: nat)
    requires Partition(Groups(ctx), n)
    ensures forall more :: Renewed(ctx.comps, ctx.sub, more) == ctx.comps
    ensures forall g :: g in ctx.comps ==> g != ctx.sub
  {
    SubGroup(ctx, n, 0);
    if ctx.sub != [] { SubNotComp(ctx, n); }
  }

  lemma NotInComps(ctx: Context, n: nat, v: nat)
    requires Partition(Groups(ctx), n) && v in ctx.sub
    ensures Find(ctx.comps, v) == [] && ReturnList(ctx, v) == ctx.sub
  {
    SubGroup(ctx, n, v);
    FindMeans(ctx.comps, v);
    assert v in [0] + ctx.sub && 0 in [0] + ctx.sub;
    assert !InSome(ctx.comps, v);
  }

  // ----- sharing -----

  /** Lists that have a relation in common are one list. */
  ghost predicate Apart(ctx: Context) {
    && Distinct(ctx.comps)
    && (forall g :: g in ctx.comps ==> g != [])
    && (forall g, h, v :: g in ctx.comps && h in ctx.comps && v in g && v in h ==> g == h)
    && (forall g, v :: g in ctx.comps && v in g && v in ctx.sub ==> g == ctx.sub)
  }

  /** Every step keeps the lists apart, also one after which the sub-level list is one of the components. */
  lemma ApartStays(ctx: Context, e: Event)
    requires Apart(ctx) && ctx.current >= -1
    ensures Apart(Step(ctx, e))
  {
    if !ctx.failed && e.Visit? && ctx.current != -1 {
      var sub := e.varno in ctx.sub || e.level > 0;
      if ctx.varSub && !sub {
        ToSubApart(ctx, e.varno);
      } else if !ctx.varSub && sub {
        ToSubApart(ctx, ctx.current);
      } else if !ctx.varSub && !sub {
        PairApart(ctx, ctx.current, e.varno);
      }
    }
  }

  lemma ToSubApart(ctx: Context, v: nat)
    requires Apart(ctx)
    ensures Apart(ToSub(ctx, ReturnList(ctx, v), v))
  {
    FindMeans(ctx.comps, v);
    var a := ReturnList(ctx, v);
    var grown := Renewed(ctx.comps, ctx.sub, ctx.sub + a);
    WithoutMembers(grown, v);
    if a == [] {
      assert ctx.sub + a == ctx.sub && grown == ctx.comps;
    } else if a != ctx.sub {
      assert v in ctx.sub + a;
      GrownDistinct(ctx, ctx.sub + a);
      forall g | g in grown && v !in g ensures g in ctx.comps && g != ctx.sub && g != a {
        var k :| 0 <= k < |grown| && grown[k] == g;
        assert ctx.comps[k] in ctx.comps;
      }
    }
  }

  lemma GrownDistinct(ctx: Context, more: seq<nat>)
    requires Apart(ctx) && ctx.sub <= more
    ensures Distinct(Renewed(ctx.comps, ctx.sub, more))
  {
    var grown := Renewed(ctx.comps, ctx.sub, more);
    forall i, j | 0 <= i < j < |grown| ensures grown[i] != grown[j] {
      assert ctx.comps[i] in ctx.comps && ctx.comps[j] in ctx.comps && ctx.comps[i] != ctx.comps[j];
      if ctx.sub != [] { assert ctx.sub[0] in ctx.sub && more[0] == ctx.sub[0] && more[0] in more; }
    }
  }

  lemma PairApart(ctx: Context, u: nat, v: nat)
    requires Apart(ctx) && v !in ctx.sub
    ensures var a, b := ReturnList(ctx, u), ReturnList(ctx, v);
      a != b ==> Apart(ctx.(comps := Without(Without(ctx.comps, u), v) + [a + b],
        sub := if a != [] && a == ctx.sub then a + b else ctx.sub))
  {
    PairAway(ctx, u, v);
    var a, b := ReturnList(ctx, u), ReturnList(ctx, v);
    if a != b {
      var rest := Without(Without(ctx.comps, u), v);
      OneMore(ctx, rest, a + b);
      if a != ctx.sub || a == [] {
        forall w | w in a + b ensures w !in ctx.sub { assert w in a || w in b; }
      }
    }
  }

  /** The lists that contain neither u nor v have nothing in common with those that do. */
  lemma PairAway(ctx: Context, u: nat, v: nat)
    requires Apart(ctx) && v !in ctx.sub
    ensures var a, b := ReturnList(ctx, u), ReturnList(ctx, v); var rest := Without(Without(ctx.comps, u), v);
      && Distinct(rest)
      && (a == [] || a == ctx.sub || a in ctx.comps) && (b == [] || (b in ctx.comps && b != ctx.sub))
      && (forall g :: g in rest ==> g in ctx.comps)
      && (forall g, w :: g in rest && w in g ==> w !in a + b)
  {
    FindMeans(ctx.comps, u);
    FindMeans(ctx.comps, v);
    WithoutMembers(ctx.comps, u);
    WithoutMembers(Without(ctx.comps, u), v);
    var a, b := ReturnList(ctx, u), ReturnList(ctx, v);
    var rest := Without(Without(ctx.comps, u), v);
    forall g, w | g in rest && w in g ensures w !in a + b {
      assert g in ctx.comps && u !in g && v !in g;
    }
  }

  lemma OneMore(ctx: Context, rest: seq<seq<nat>>, g: seq<nat>)
    requires Apart(ctx) && Distinct(rest) && g != [] && forall h :: h in rest ==> h in ctx.comps
    requires forall h, w :: h in rest && w in h ==> w !in g
    ensures var all := rest + [g];
      && Distinct(all)
      && (forall h :: h in all ==> h != [])
      && (forall h, k, w :: h in all && k in all && w in h && w in k ==> h == k)
  {
    var all := rest + [g];
    forall i, j | 0 <= i < j < |all| ensures all[i] != all[j] {
      assert all[i] in rest && all[i] in ctx.comps;
      if j == |rest| { assert all[i][0] in all[i]; }
    }
    assert forall h :: h in all <==> h in rest || h == g;
  }

  /** One comparison with columns of relation 1, of an outer query and of relation 2. */
  function ThirdColumn(): Context {
    Step(Step(Step(Initial(2), Visit(0, 1)), Visit(1, 1)), Visit(0, 2))
  }

  /** It leaves one list, held both as the sub level and as a component. */
  lemma ThirdColumnBreaksPartition()
    ensures ThirdColumn().sub == [1, 2] && ThirdColumn().comps == [[1, 2]]
    ensures !ThirdColumn().failed && !Partition(Groups(ThirdColumn()), 2)
  {
    SecondColumn();
    var c2 := Context([1], [[2]], 1, false, false);
    var c3 := Step(c2, Visit(0, 2));
    assert Find([[2]], 1) == [] && Find([[2]], 2) == [2];
    assert Without([[2]], 1) == [[2]] && Without([[2]], 2) == [];
    assert ReturnList(c2, 1) == [1] && ReturnList(c2, 2) == [2] && [1] + [2] == [1, 2];
    assert c3 == Context([1, 2], [[1, 2]], 1, false, false);
    assert Groups(c3)[0] == [0, 1, 2] && Groups(c3)[1] == [1, 2];
    assert Groups(c3)[0] in Groups(c3) && Groups(c3)[1] in Groups(c3);
    assert 1 in Groups(c3)[0] && 1 in Groups(c3)[1];
  }

  lemma SecondColumn()
    ensures Step(Step(Initial(2), Visit(0, 1)), Visit(1, 1)) == Context([1], [[2]], 1, false, false)
  {
    var c0 := Context([], [[1], [2]], -1, false, false);
    assert Initial(2).comps == [[1], [2]];
    assert Initial(2) == c0;
    var c1 := Step(c0, Visit(0, 1));
    assert c1 == Context([], [[1], [2]], 1, false, false);
    assert [[1], [2]][1..] == [[2]] && [[2]][1..] == [];
    assert Find(c1.comps, 1) == [1] && ReturnList(c1, 1) == [1];
    assert Renewed(c1.comps, [], [1]) == c1.comps && [] + [1] == [1];
    assert Without([[2]], 1) == [[2]] && Without(c1.comps, 1) == [[2]];
  }

  /** A second column of an outer query instead: list_concat refuses the sub-level list as both its arguments. */
  lemma SecondOuterColumnFails()
    ensures Step(Step(Step(Initial(2), Visit(0, 1)), Visit(1, 1)), Visit(1, 1)).failed
  {
    SecondColumn();
    var c2 := Context([1], [[2]], 1, false, false);
    assert Find([[2]], 1) == [];
    assert ReturnList(c2, 1) == [1];
  }
}
