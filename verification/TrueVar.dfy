/** Lists of true variables: lookup, membership, union and intersection by counting. */
module TrueVar {
  import opened Sql
  import opened Completions

  ghost predicate Distinct<T>(s: seq<T>) {
    forall i, j :: 0 <= i < j < |s| ==> s[i] != s[j]
  }

  /** First occurrences, in order. */
  function Dedup(l: seq<Attr>): (r: seq<Attr>) {
    if l == [] then []
    else
      var r := Dedup(l[..|l| - 1]);
      if l[|l| - 1] in r then r else r + [l[|l| - 1]]
  }

  /** First occurrences of the members of l that occur exactly n times in all. */
  function Occurring(l: seq<Attr>, all: seq<Attr>, n: nat): (r: seq<Attr>) {
    if l == [] then []
    else
      var r := Occurring(l[..|l| - 1], all, n);
      if l[|l| - 1] !in r && multiset(all)[l[|l| - 1]] == n then r + [l[|l| - 1]] else r
  }

  lemma {:induction false} DedupMeans(l: seq<Attr>)
    ensures Distinct(Dedup(l))
    ensures forall a :: a in Dedup(l) <==> a in l
  {
    if l != [] {
      DedupMeans(l[..|l| - 1]);
      assert l == l[..|l| - 1] + [l[|l| - 1]];
    }
  }

  lemma {:induction false} OccurringMeans(l: seq<Attr>, all: seq<Attr>, n: nat)
    ensures Distinct(Occurring(l, all, n))
    ensures forall a :: a in Occurring(l, all, n) <==> a in l && multiset(all)[a] == n
  {
    if l != [] {
      OccurringMeans(l[..|l| - 1], all, n);
      assert l == l[..|l| - 1] + [l[|l| - 1]];
    }
  }

  /** Where a occurs first. */
  function FirstAt(l: seq<Attr>, a: Attr): (i: nat)
    requires a in l
    ensures i < |l| && l[i] == a && a !in l[..i]
  {
    if l[0] == a then 0 else 1 + FirstAt(l[1..], a)
  }

  lemma {:induction false} FirstAtFront(l: seq<Attr>, n: nat, a: Attr)
    requires n <= |l| && a in l[..n]
    ensures a in l && FirstAt(l, a) == FirstAt(l[..n], a)
  {
    assert l[..n][0] == l[0] && l[..n][1..] == l[1..][..n - 1];
    if l[0] != a { FirstAtFront(l[1..], n - 1, a); }
  }

  /** In the order in which the members of l occur first. */
  ghost predicate InOrder(r: seq<Attr>, l: seq<Attr>) {
    (forall a :: a in r ==> a in l) && forall i, j :: 0 <= i < j < |r| ==> FirstAt(l, r[i]) < FirstAt(l, r[j])
  }

  lemma InOrderMore(r: seq<Attr>, l: seq<Attr>, n: nat)
    requires n < |l| && InOrder(r, l[..n])
    ensures InOrder(r, l) && (l[n] !in l[..n] ==> InOrder(r + [l[n]], l))
  {
    forall a | a in r ensures a in l && FirstAt(l, a) == FirstAt(l[..n], a) < n { FirstAtFront(l, n, a); }
    forall i | 0 <= i < |r| ensures FirstAt(l, r[i]) < n { assert r[i] in r; }
    forall i, j | 0 <= i < j < |r| ensures FirstAt(l, r[i]) < FirstAt(l, r[j]) { assert r[i] in r && r[j] in r; }
    if l[n] !in l[..n] { FirstAtIs(l, n); }
  }

  lemma {:induction false} FirstAtIs(l: seq<Attr>, n: nat)
    requires n < |l| && l[n] !in l[..n]
    ensures FirstAt(l, l[n]) == n
  {
    if n > 0 {
      assert l[..n][0] == l[0] && l[..n][1..] == l[1..][..n - 1];
      FirstAtIs(l[1..], n - 1);
    }
  }

  lemma {:induction false} DedupInOrder(l: seq<Attr>)
    ensures InOrder(Dedup(l), l)
  {
    if l != [] {
      var n := |l| - 1;
      DedupInOrder(l[..n]);
      DedupMeans(l[..n]);
      InOrderMore(Dedup(l[..n]), l, n);
    }
  }

  lemma {:induction false} OccurringInOrder(l: seq<Attr>, all: seq<Attr>, n: nat)
    ensures InOrder(Occurring(l, all, n), l)
  {
    if l != [] {
      var m := |l| - 1;
      OccurringInOrder(l[..m], all, n);
      OccurringMeans(l[..m], all, n);
      InOrderMore(Occurring(l[..m], all, n), l, m);
    }
  }

  /** One step outwards for each level, then relation and column by position. */
  method GetTrueVar(chain: Chain, t: Term) returns (a: Attr)
    requires t.Column? && InScope(chain, t)
    ensures a == AttrOf(chain, t)
  {
    var temp := chain;
    for i := 0 to t.level
      invariant temp == chain[i..]
    {
      temp := temp[1..];
    }
    a := temp[0][t.varno - 1][t.attno - 1];
  }

  method IsInListTrueVar(list: seq<Attr>, a: Attr) returns (found: bool)
    ensures found <==> a in list
  {
    for i := 0 to |list|
      invariant a !in list[..i]
    {
      if list[i] == a { return true; }
    }
    return false;
  }

  method UnionList(l: seq<Attr>) returns (r: seq<Attr>)
    ensures r == Dedup(l)
  {
    r := [];
    for i := 0 to |l|
      invariant r == Dedup(l[..i])
    {
      assert l[..i + 1][..i] == l[..i];
      var present := IsInListTrueVar(r, l[i]);
      if !present { r := r + [l[i]]; }
    }
    assert l[..|l|] == l;
  }

  method CountIn(l: seq<Attr>, v: Attr) returns (n: nat)
    ensures n == multiset(l)[v]
  {
    n := 0;
    for j := 0 to |l|
      invariant n == multiset(l[..j])[v]
    {
      assert l[..j + 1] == l[..j] + [l[j]];
      if l[j] == v { n := n + 1; }
    }
    assert l[..|l|] == l;
  }

  method InterList(l: seq<Attr>, nbArg: nat) returns (r: seq<Attr>)
    ensures r == Occurring(l, l, nbArg)
  {
    r := [];
    for i := 0 to |l|
      invariant r == Occurring(l[..i], l, nbArg)
    {
      assert l[..i + 1][..i] == l[..i];
      var n := CountIn(l, l[i]);
      if n == nbArg {
        var present := IsInListTrueVar(r, l[i]);
        if !present { r := r + [l[i]]; }
      }
    }
    assert l[..|l|] == l;
  }

  // ----- counting occurrences is intersection when no list repeats an element -----

  function Flatten(ls: seq<seq<Attr>>): seq<Attr> {
    if ls == [] then [] else ls[0] + Flatten(ls[1..])
  }

  lemma DistinctCount(l: seq<Attr>, a: Attr)
    requires Distinct(l)
    ensures multiset(l)[a] == if a in l then 1 else 0
  {
    if l != [] {
      var front := l[..|l| - 1];
      assert l == front + [l[|l| - 1]];
      DistinctCount(front, a);
    }
  }

  lemma {:induction false} CountBound(ls: seq<seq<Attr>>, a: Attr)
    requires forall i :: 0 <= i < |ls| ==> Distinct(ls[i])
    ensures multiset(Flatten(ls))[a] <= |ls|
    ensures multiset(Flatten(ls))[a] == |ls| <==> forall i :: 0 <= i < |ls| ==> a in ls[i]
  {
    if ls != [] {
      CountBound(ls[1..], a);
      DistinctCount(ls[0], a);
      assert forall i :: 1 <= i < |ls| ==> ls[i] == ls[1..][i - 1];
      if forall i :: 0 <= i < |ls[1..]| ==> a in ls[1..][i] {
        assert forall i :: 1 <= i < |ls| ==> a in ls[i];
      }
    }
  }

  lemma {:induction false} FlattenMembers(ls: seq<seq<Attr>>, a: Attr)
    ensures a in Flatten(ls) <==> exists i :: 0 <= i < |ls| && a in ls[i]
  {
    if ls != [] {
      FlattenMembers(ls[1..], a);
      if i :| 0 <= i < |ls| && a in ls[i] {
        if i > 0 { assert ls[1..][i - 1] == ls[i]; }
      }
      if i :| 0 <= i < |ls[1..]| && a in ls[1..][i] { assert ls[i + 1] == ls[1..][i]; }
    }
  }

  /** inter_list over the concatenation of nb_arg duplicate-free lists is their intersection. */
  lemma InterIsIntersection(ls: seq<seq<Attr>>, a: Attr)
    requires |ls| > 0 && forall i :: 0 <= i < |ls| ==> Distinct(ls[i])
    ensures a in Occurring(Flatten(ls), Flatten(ls), |ls|) <==> forall i :: 0 <= i < |ls| ==> a in ls[i]
  {
    OccurringMeans(Flatten(ls), Flatten(ls), |ls|);
    CountBound(ls, a);
  }
}
