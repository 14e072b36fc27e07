/**
 The lookup of the not-null lists: nodes are numbered in pre-order, lists were stored in post-order
 and are taken from the end.
 */
module HookLookup {
  import opened Sql
  import opened Mutator

  /** No AND or OR has two arguments with further ANDs and ORs inside. */
  predicate Spine(c: Cond)
    decreases c
  {
    match c
    case And(cs) => Spines(cs)
    case Or(cs) => Spines(cs)
    case Not(a) => Spine(a)
    case Exists(_, q) => Spine(q)
    case _ => true
  }

  predicate Spines(cs: seq<Cond>)
    decreases cs
  {
    Branchless(cs) && forall i :: 0 <= i < |cs| ==> Spine(cs[i])
  }

  predicate Branchless(cs: seq<Cond>) {
    forall i, j :: 0 <= i < j < |cs| ==> Junctions(cs[i]) == 0 || Junctions(cs[j]) == 0
  }

  // ----- which node finds whose list -----

  /** A node is named by the way to it: the arguments taken from the root. */
  type Path = seq<nat>

  /** The AND and OR nodes in the order in which the mutator comes to them. */
  function Pre(p: Path, c: Cond): seq<Path>
    decreases c
  {
    match c
    case And(cs) => [p] + PreOf(p, 0, cs)
    case Or(cs) => [p] + PreOf(p, 0, cs)
    case Not(a) => Pre(p, a)
    case Exists(_, q) => Pre(p, q)
    case _ => []
  }

  function PreOf(p: Path, k: nat, cs: seq<Cond>): seq<Path>
    decreases cs
  {
    if cs == [] then [] else Pre(p + [k], cs[0]) + PreOf(p, k + 1, cs[1..])
  }

  /** The same nodes in the order in which the first pass stored their lists. */
  function Post(p: Path, c: Cond): seq<Path>
    decreases c
  {
    match c
    case And(cs) => PostOf(p, 0, cs) + [p]
    case Or(cs) => PostOf(p, 0, cs) + [p]
    case Not(a) => Post(p, a)
    case Exists(_, q) => Post(p, q)
    case _ => []
  }

  function PostOf(p: Path, k: nat, cs: seq<Cond>): seq<Path>
    decreases cs
  {
    if cs == [] then [] else Post(p + [k], cs[0]) + PostOf(p, k + 1, cs[1..])
  }

  function Backwards(s: seq<Path>): (r: seq<Path>)
    ensures |r| == |s| && forall i :: 0 <= i < |s| ==> r[i] == s[|s| - 1 - i]
  {
    seq(|s|, i requires 0 <= i < |s| => s[|s| - 1 - i])
  }

  lemma BackwardsConcat(a: seq<Path>, b: seq<Path>)
    ensures Backwards(a + b) == Backwards(b) + Backwards(a)
  {
  }

  lemma {:induction false} OrderCounts(p: Path, c: Cond)
    ensures |Pre(p, c)| == |Post(p, c)| == Junctions(c)
    decreases c
  {
    match c
    case And(cs) => OrderCountsOf(p, 0, cs);
    case Or(cs) => OrderCountsOf(p, 0, cs);
    case Not(a) => OrderCounts(p, a);
    case Exists(_, q) => OrderCounts(p, q);
    case _ =>
  }

  lemma {:induction false} OrderCountsOf(p: Path, k: nat, cs: seq<Cond>)
    ensures |PreOf(p, k, cs)| == |PostOf(p, k, cs)| == JunctionsOf(cs)
    decreases cs
  {
    if cs != [] { OrderCounts(p + [k], cs[0]); OrderCountsOf(p, k + 1, cs[1..]); }
  }

  lemma {:induction false} PreBelow(p: Path, c: Cond, i: nat)
    requires i < |Pre(p, c)|
    ensures p <= Pre(p, c)[i]
    decreases c
  {
    match c
    case And(cs) => if i > 0 { PreOfBelow(p, 0, cs, i - 1); }
    case Or(cs) => if i > 0 { PreOfBelow(p, 0, cs, i - 1); }
    case Not(a) => PreBelow(p, a, i);
    case Exists(_, q) => PreBelow(p, q, i);
  }

  lemma {:induction false} PreOfBelow(p: Path, k: nat, cs: seq<Cond>, i: nat)
    requires i < |PreOf(p, k, cs)|
    ensures p <= PreOf(p, k, cs)[i]
    decreases cs
  {
    var first := Pre(p + [k], cs[0]);
    if i < |first| { PreBelow(p + [k], cs[0], i); } else { PreOfBelow(p, k + 1, cs[1..], i - |first|); }
  }

  lemma {:induction false} PostBelow(p: Path, c: Cond, i: nat)
    requires i < |Post(p, c)|
    ensures p <= Post(p, c)[i]
    decreases c, 0
  {
    match c
    case And(cs) => if i < |PostOf(p, 0, cs)| { PostOfBelow(p, 0, cs, i); }
    case Or(cs) => if i < |PostOf(p, 0, cs)| { PostOfBelow(p, 0, cs, i); }
    case Not(a) => PostBelow(p, a, i);
    case Exists(_, q) => PostBelow(p, q, i);
  }

  lemma {:induction false} PostOfBelow(p: Path, k: nat, cs: seq<Cond>, i: nat)
    requires i < |PostOf(p, k, cs)|
    ensures p <= PostOf(p, k, cs)[i] && |PostOf(p, k, cs)[i]| > |p| && PostOf(p, k, cs)[i][|p|] >= k
    decreases cs
  {
    var first := Post(p + [k], cs[0]);
    if i < |first| { PostBelow(p + [k], cs[0], i); } else { PostOfBelow(p, k + 1, cs[1..], i - |first|); }
  }

  lemma JoinAgree(a: seq<Path>, b: seq<Path>, a': seq<Path>, b': seq<Path>)
    requires |a| == |a'| && |b| == |b'|
    requires a != [] && b != [] ==> a[0] != b'[|b'| - 1]
    ensures a + b == Backwards(a' + b') <==> (a == [] || b == []) && a == Backwards(a') && b == Backwards(b')
  {
    BackwardsConcat(a', b');
    if a == [] {
      assert a + b == b && Backwards(b') + Backwards(a') == Backwards(b');
    } else if b == [] {
      assert a + b == a && Backwards(b') + Backwards(a') == Backwards(a');
    } else {
      assert (a + b)[0] == a[0] && (Backwards(b') + Backwards(a'))[0] == b'[|b'| - 1];
    }
  }

  /** The first node of the first argument is not the last node of the others. */
  lemma FirstIsNotLast(p: Path, k: nat, cs: seq<Cond>)
    requires cs != [] && Pre(p + [k], cs[0]) != [] && PostOf(p, k + 1, cs[1..]) != []
    ensures var last := PostOf(p, k + 1, cs[1..]); Pre(p + [k], cs[0])[0] != last[|last| - 1]
  {
    PreBelow(p + [k], cs[0], 0);
    PostOfBelow(p, k + 1, cs[1..], |PostOf(p, k + 1, cs[1..])| - 1);
    assert Pre(p + [k], cs[0])[0][|p|] == k;
  }

  /** The two orders agree below a node exactly if at most one argument has nodes, and they agree there. */
  lemma {:induction false} ArgumentsAgree(p: Path, k: nat, cs: seq<Cond>)
    ensures PreOf(p, k, cs) == Backwards(PostOf(p, k, cs)) <==> Spines(cs)
    decreases cs
  {
    if cs != [] {
      var a, b := Pre(p + [k], cs[0]), PreOf(p, k + 1, cs[1..]);
      var a', b' := Post(p + [k], cs[0]), PostOf(p, k + 1, cs[1..]);
      NodesAgree(p + [k], cs[0]);
      ArgumentsAgree(p, k + 1, cs[1..]);
      OrderCounts(p + [k], cs[0]);
      OrderCountsOf(p, k + 1, cs[1..]);
      if a != [] && b != [] { FirstIsNotLast(p, k, cs); }
      JoinAgree(a, b, a', b');
      TailSpines(cs);
    }
  }

  lemma {:induction false} NodesAgree(p: Path, c: Cond)
    ensures Pre(p, c) == Backwards(Post(p, c)) <==> Spine(c)
    decreases c
  {
    match c
    case And(cs) => RootAgrees(p, cs); ArgumentsAgree(p, 0, cs);
    case Or(cs) => RootAgrees(p, cs); ArgumentsAgree(p, 0, cs);
    case Not(a) => NodesAgree(p, a);
    case Exists(_, q) => NodesAgree(p, q);
    case _ =>
  }

  lemma RootAgrees(p: Path, cs: seq<Cond>)
    ensures var a, b := PreOf(p, 0, cs), PostOf(p, 0, cs); [p] + a == Backwards(b + [p]) <==> a == Backwards(b)
  {
    var a, b := PreOf(p, 0, cs), PostOf(p, 0, cs);
    BackwardsConcat(b, [p]);
    assert Backwards([p]) == [p];
    assert ([p] + a)[1..] == a && ([p] + Backwards(b))[1..] == Backwards(b);
  }

  lemma TailSpines(cs: seq<Cond>)
    requires cs != []
    ensures Spines(cs) <==> Spine(cs[0]) && Spines(cs[1..]) && (Junctions(cs[0]) == 0 || JunctionsOf(cs[1..]) == 0)
  {
    TailBranchless(cs);
    assert forall i :: 0 <= i < |cs[1..]| ==> cs[1..][i] == cs[i + 1];
    if Spine(cs[0]) && Spines(cs[1..]) {
      forall i | 0 <= i < |cs| ensures Spine(cs[i]) { if i > 0 { assert cs[i] == cs[1..][i - 1]; } }
    }
  }

  lemma TailBranchless(cs: seq<Cond>)
    requires cs != []
    ensures Branchless(cs) <==> Branchless(cs[1..]) && (Junctions(cs[0]) == 0 || JunctionsOf(cs[1..]) == 0)
  {
    JunctionsAmong(cs[1..]);
    if Branchless(cs[1..]) && (Junctions(cs[0]) == 0 || JunctionsOf(cs[1..]) == 0) {
      forall i, j | 0 <= i < j < |cs| ensures Junctions(cs[i]) == 0 || Junctions(cs[j]) == 0 {
        assert cs[j] == cs[1..][j - 1];
        if i > 0 { assert cs[i] == cs[1..][i - 1]; }
      }
    }
    if Branchless(cs) {
      forall i, j | 0 <= i < j < |cs[1..]| ensures Junctions(cs[1..][i]) == 0 || Junctions(cs[1..][j]) == 0 {
        assert cs[1..][i] == cs[i + 1] && cs[1..][j] == cs[j + 1];
      }
      if JunctionsOf(cs[1..]) > 0 {
        var i :| 0 <= i < |cs[1..]| && Junctions(cs[1..][i]) > 0;
        assert cs[1..][i] == cs[i + 1];
      }
    }
  }

  lemma {:induction false} JunctionsAmong(cs: seq<Cond>)
    ensures JunctionsOf(cs) > 0 <==> exists i :: 0 <= i < |cs| && Junctions(cs[i]) > 0
  {
    if cs != [] {
      JunctionsAmong(cs[1..]);
      if i :| 0 <= i < |cs| && Junctions(cs[i]) > 0 {
        assert i > 0 ==> Junctions(cs[1..][i - 1]) > 0;
      }
      if i :| 0 <= i < |cs[1..]| && Junctions(cs[1..][i]) > 0 {
        assert cs[1..][i] == cs[i + 1];
      }
    }
  }

  /** Every node finds its own list, exactly if no AND or OR branches into two. */
  lemma LookupIsOwnExactly(c: Cond)
    ensures |Pre([], c)| == |Post([], c)| == Junctions(c)
    ensures (forall at :: 0 <= at < Junctions(c) ==> Pre([], c)[at] == Post([], c)[Junctions(c) - at - 1]) <==> Spine(c)
  {
    OrderCounts([], c);
    NodesAgree([], c);
  }
}
