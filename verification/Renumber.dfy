/**
 Renumbering relations while components are taken out of a query one by one: after each removal
 every remaining number drops by how many removed numbers lie below it.
 */
module Renumber {
  import Components

  /** How many entries of l lie below v. */
  function Below(l: seq<nat>, v: int): nat {
    if l == [] then 0 else Below(l[..|l| - 1], v) + if l[|l| - 1] < v then 1 else 0
  }

  method Decrease(varno: nat, l: seq<nat>) returns (r: int)
    ensures r == varno - Below(l, varno)
  {
    var i := 0;
    for k := 0 to |l|
      invariant i == Below(l[..k], varno)
    {
      assert l[..k + 1][..k] == l[..k];
      if varno > l[k] { i := i + 1; }
    }
    assert l[..|l|] == l;
    r := varno - i;
  }

  /** The rank of v: how many numbers 1..v are not gone. */
  function Rank(v: nat, gone: seq<nat>): nat {
    if v == 0 then 0 else Rank(v - 1, gone) + if v in gone then 0 else 1
  }

  ghost predicate Distinct(s: seq<nat>) {
    forall i, j :: 0 <= i < j < |s| ==> s[i] != s[j]
  }

  ghost predicate Apart(a: seq<nat>, b: seq<nat>) {
    forall v :: v in a ==> v !in b
  }

  // ----- ranks are an order-preserving bijection -----

  lemma {:induction false} RankGrows(u: nat, v: nat, gone: seq<nat>)
    requires u <= v
    ensures Rank(u, gone) <= Rank(v, gone)
    ensures u < v && v !in gone ==> Rank(u, gone) < Rank(v, gone)
    decreases v
  {
    if u < v { RankGrows(u, v - 1, gone); }
  }

  lemma {:induction false} RankReached(n: nat, gone: seq<nat>, k: nat) returns (v: nat)
    requires 1 <= k <= Rank(n, gone)
    ensures 1 <= v <= n && v !in gone && Rank(v, gone) == k
    decreases n
  {
    if n !in gone && Rank(n, gone) == k { v := n; } else { v := RankReached(n - 1, gone, k); }
  }

  lemma {:induction false} BelowStep(c: seq<nat>, v: nat)
    ensures Below(c, v + 1) == Below(c, v) + multiset(c)[v]
  {
    if c != [] {
      BelowStep(c[..|c| - 1], v);
      assert c == c[..|c| - 1] + [c[|c| - 1]];
    }
  }

  lemma {:induction false} BelowZero(c: seq<nat>)
    ensures Below(c, 0) == 0
  {
    if c != [] { BelowZero(c[..|c| - 1]); }
  }

  lemma {:induction false} DistinctOnce(c: seq<nat>, v: nat)
    requires Distinct(c)
    ensures multiset(c)[v] == if v in c then 1 else 0
  {
    if c != [] {
      var front := c[..|c| - 1];
      assert c == front + [c[|c| - 1]];
      DistinctOnce(front, v);
    }
  }

  /** Taking out c lowers a rank by the removed numbers that are not above it. */
  lemma {:induction false} RankAfter(v: nat, gone: seq<nat>, c: seq<nat>)
    requires Distinct(c) && Apart(c, gone) && 0 !in c
    ensures Rank(v, gone + c) == Rank(v, gone) - Below(c, v + 1)
  {
    BelowStep(c, v);
    DistinctOnce(c, v);
    if v == 0 { BelowZero(c); } else { RankAfter(v - 1, gone, c); }
  }

  function Ranks(l: seq<nat>, gone: seq<nat>): (r: seq<nat>)
    ensures |r| == |l| && forall i :: 0 <= i < |l| ==> r[i] == Rank(l[i], gone)
  {
    seq(|l|, i requires 0 <= i < |l| => Rank(l[i], gone))
  }

  lemma {:induction false} BelowRanks(c: seq<nat>, v: nat, gone: seq<nat>)
    requires Apart(c, gone) && v !in gone && v !in c
    ensures Below(Ranks(c, gone), Rank(v, gone)) == Below(c, v)
    decreases |c|
  {
    if c != [] {
      var front, x := c[..|c| - 1], c[|c| - 1];
      assert Ranks(c, gone)[..|c| - 1] == Ranks(front, gone);
      assert forall u :: u in front ==> u in c;
      BelowRanks(front, v, gone);
      assert x in c;
      if x < v { RankGrows(x, v, gone); } else { RankGrows(v, x, gone); }
    }
  }

  /** One renumbering takes the rank among the old survivors to the rank among the new ones. */
  lemma DecreaseIsRank(v: nat, gone: seq<nat>, c: seq<nat>)
    requires Distinct(c) && Apart(c, gone) && 0 !in c && v !in gone && v !in c
    ensures Rank(v, gone) - Below(Ranks(c, gone), Rank(v, gone)) == Rank(v, gone + c)
  {
    BelowRanks(c, v, gone);
    RankAfter(v, gone, c);
    BelowStep(c, v);
    DistinctOnce(c, v);
  }

  /** The largest rank is the number of relations left. */
  lemma {:induction false} RelationsLeft(n: nat, gone: seq<nat>)
    requires Distinct(gone) && forall v :: v in gone ==> 1 <= v <= n
    ensures Rank(n, gone) == n - |gone|
  {
    assert Apart(gone, []);
    assert [] + gone == gone;
    RankAfter(n, [], gone);
    RankOfNone(n);
    BelowAll(gone, n + 1);
  }

  lemma {:induction false} RankOfNone(n: nat)
    ensures Rank(n, []) == n
  {
    if n > 0 { RankOfNone(n - 1); }
  }

  lemma {:induction false} BelowAll(c: seq<nat>, v: nat)
    requires forall x :: x in c ==> x < v
    ensures Below(c, v) == |c|
  {
    if c != [] {
      var front := c[..|c| - 1];
      assert forall x :: x in front ==> x in c;
      assert c[|c| - 1] in c;
      BelowAll(front, v);
    }
  }

  // ----- the loop -----

  function Gone(comps: seq<seq<nat>>): seq<nat> {
    if comps == [] then [] else Gone(comps[..|comps| - 1]) + comps[|comps| - 1]
  }

  /** Lists without repetition, pairwise disjoint, within 1..n. */
  ghost predicate Separate(comps: seq<seq<nat>>, n: nat) {
    && (forall i :: 0 <= i < |comps| ==> Distinct(comps[i]) && forall v :: v in comps[i] ==> 1 <= v <= n)
    && (forall i, j :: 0 <= i < j < |comps| ==> Apart(comps[i], comps[j]))
  }

  lemma {:induction false} GoneMeans(comps: seq<seq<nat>>, n: nat, k: nat)
    requires Separate(comps, n) && k <= |comps|
    ensures Distinct(Gone(comps[..k])) && forall v :: v in Gone(comps[..k]) ==> 1 <= v <= n
    ensures forall j :: k <= j < |comps| ==> Apart(comps[j], Gone(comps[..k])) && Apart(Gone(comps[..k]), comps[j])
    decreases k
  {
    if k > 0 {
      GoneMeans(comps, n, k - 1);
      assert comps[..k][..k - 1] == comps[..k - 1];
      var g, c := Gone(comps[..k - 1]), comps[k - 1];
      assert Gone(comps[..k]) == g + c;
      assert Apart(g, c);
      forall i, j | 0 <= i < j < |g + c| ensures (g + c)[i] != (g + c)[j] {
        if i < |g| <= j { assert (g + c)[i] in g && (g + c)[j] in c; }
      }
      forall j | k <= j < |comps| ensures Apart(comps[j], g + c) && Apart(g + c, comps[j]) {
        assert Apart(comps[k - 1], comps[j]) && Apart(g, comps[j]);
      }
    }
  }

  /** The lists k.. of comps in the numbering after the first k are gone. */
  ghost predicate Renumbered(list: seq<seq<nat>>, comps: seq<seq<nat>>, k: nat) {
    k + |list| == |comps| && forall i :: 0 <= i < |list| ==> list[i] == Ranks(comps[k + i], Gone(comps[..k]))
  }

  method RenumberOne(l: seq<nat>, removed: seq<nat>, ghost orig: seq<nat>, ghost gone: seq<nat>, ghost c: seq<nat>)
    returns (r: seq<nat>)
    requires Distinct(c) && Apart(c, gone) && 0 !in c
    requires Apart(orig, gone) && Apart(orig, c)
    requires l == Ranks(orig, gone) && removed == Ranks(c, gone)
    ensures r == Ranks(orig, gone + c)
  {
    r := [];
    for i := 0 to |l|
      invariant |r| == i && forall k :: 0 <= k < i ==> r[k] == Rank(orig[k], gone + c)
    {
      assert orig[i] in orig;
      DecreaseIsRank(orig[i], gone, c);
      var d := Decrease(l[i], removed);
      r := r + [d];
    }
  }

  /** The lists after the first one, renumbered as if the first one were gone. */
  method RenumberRest(list: seq<seq<nat>>, ghost comps: seq<seq<nat>>, ghost n: nat, ghost k: nat)
    returns (tmp: seq<seq<nat>>)
    requires Separate(comps, n) && |list| > 0 && Renumbered(list, comps, k)
    ensures |tmp| == |list| - 1 && Renumbered(tmp, comps, k + 1)
  {
    GoneMeans(comps, n, k);
    ghost var g, c := Gone(comps[..k]), comps[k];
    assert comps[..k + 1][..k] == comps[..k];
    assert Gone(comps[..k + 1]) == g + c;
    assert Apart(c, g) && 0 !in c && list[0] == Ranks(c, g);
    tmp := [];
    for i := 1 to |list|
      invariant |tmp| == i - 1
      invariant forall m :: 0 <= m < i - 1 ==> tmp[m] == Ranks(comps[k + 1 + m], g + c)
    {
      ghost var orig := comps[k + i];
      assert Apart(c, orig) && Apart(orig, g);
      var l := RenumberOne(list[i], list[0], orig, g, c);
      tmp := tmp + [l];
    }
  }

  lemma StartsRenumbered(comps: seq<seq<nat>>)
    ensures Renumbered(comps, comps, 0)
  {
    assert comps[..0] == [];
    forall i | 0 <= i < |comps| ensures comps[i] == Ranks(comps[i], []) {
      forall m | 0 <= m < |comps[i]| ensures Rank(comps[i][m], []) == comps[i][m] { RankOfNone(comps[i][m]); }
    }
  }

  /**
   The loop of optimize_exist.  calls are the lists it hands over for rewriting: list k in the ranks
   that remain once lists 0..k-1 are gone.
   */
  method RewriteComponents(comps: seq<seq<nat>>, ghost n: nat) returns (calls: seq<seq<nat>>)
    requires Separate(comps, n)
    ensures |calls| == |comps|
    ensures forall k :: 0 <= k < |comps| ==> calls[k] == Ranks(comps[k], Gone(comps[..k]))
  {
    calls := [];
    var list := comps;
    StartsRenumbered(comps);
    while |list| != 0
      invariant |calls| + |list| == |comps| && Renumbered(list, comps, |calls|)
      invariant forall m :: 0 <= m < |calls| ==> calls[m] == Ranks(comps[m], Gone(comps[..m]))
      decreases |list|
    {
      var tmp := RenumberRest(list, comps, n, |calls|);
      calls := calls + [list[0]];
      list := tmp;
    }
  }

  /** Each list stays within the relations left, and no number is handed out twice. */
  lemma CallsFit(comps: seq<seq<nat>>, n: nat, k: nat, i: nat)
    requires Separate(comps, n) && k <= i < |comps|
    ensures forall x :: x in Ranks(comps[i], Gone(comps[..k])) ==> 1 <= x <= n - |Gone(comps[..k])|
    ensures Distinct(Ranks(comps[i], Gone(comps[..k])))
    ensures forall j ::
      k <= j < |comps| && j != i ==> Apart(Ranks(comps[i], Gone(comps[..k])), Ranks(comps[j], Gone(comps[..k])))
  {
    GoneMeans(comps, n, k);
    var g := Gone(comps[..k]);
    RelationsLeft(n, g);
    forall m | 0 <= m < |comps[i]| ensures 1 <= Rank(comps[i][m], g) <= Rank(n, g) {
      assert comps[i][m] in comps[i];
      RankGrows(0, comps[i][m], g);
      RankGrows(comps[i][m], n, g);
    }
    forall a, b | 0 <= a < b < |comps[i]| ensures Rank(comps[i][a], g) != Rank(comps[i][b], g) {
      assert comps[i][a] in comps[i] && comps[i][b] in comps[i];
      RanksDiffer(comps[i][a], comps[i][b], g);
    }
    forall j, a, b | k <= j < |comps| && j != i && 0 <= a < |comps[i]| && 0 <= b < |comps[j]|
      ensures Rank(comps[i][a], g) != Rank(comps[j][b], g)
    {
      assert comps[i][a] in comps[i] && comps[j][b] in comps[j];
      assert Apart(comps[if i < j then i else j], comps[if i < j then j else i]);
      RanksDiffer(comps[i][a], comps[j][b], g);
    }
  }

  lemma RanksDiffer(u: nat, v: nat, gone: seq<nat>)
    requires u != v && u !in gone && v !in gone
    ensures Rank(u, gone) != Rank(v, gone)
  {
    if u < v { RankGrows(u, v, gone); } else { RankGrows(v, u, gone); }
  }

  /** What the walk leaves is fit for the loop. */
  lemma ComponentsAreSeparate(ctx: Components.Context, n: nat)
    requires Components.Partition(Components.Groups(ctx), n)
    ensures Separate(ctx.comps, n)
  {
    Components.SubGroup(ctx, n, 0);
    forall i | 0 <= i < |ctx.comps| ensures Distinct(ctx.comps[i]) && forall v :: v in ctx.comps[i] ==> 1 <= v <= n {
      OneComponent(ctx, n, ctx.comps[i]);
    }
    forall i, j | 0 <= i < j < |ctx.comps| ensures Apart(ctx.comps[i], ctx.comps[j]) {
      TwoComponents(ctx, n, ctx.comps[i], ctx.comps[j]);
    }
  }

  lemma OneComponent(ctx: Components.Context, n: nat, g: seq<nat>)
    requires Components.Partition(Components.Groups(ctx), n) && g in ctx.comps
    ensures Distinct(g) && forall v :: v in g ==> 1 <= v <= n
  {
    Components.SubGroup(ctx, n, 0);
    assert g in Components.Groups(ctx);
    assert Components.Distinct(g);
  }

  lemma TwoComponents(ctx: Components.Context, n: nat, g: seq<nat>, h: seq<nat>)
    requires Components.Partition(Components.Groups(ctx), n) && g in ctx.comps && h in ctx.comps && g != h
    ensures Apart(g, h)
  {
    Components.SubGroup(ctx, n, 0);
    assert g in Components.Groups(ctx) && h in Components.Groups(ctx);
  }
}
