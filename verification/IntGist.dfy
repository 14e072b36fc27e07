/** Sorted-array tools and the GiST methods of gist__int_ops. */
module IntGist {
  import opened IntRanges
  import opened IntExpand
  import opened IntCover
  import opened IntQuery
  import opened IntQueryExec
  import opened GistTree

  // ----- tools -----

  /** Runs of equal elements cut down to one. */
  function Uniq(s: seq<int>): (u: seq<int>)
    ensures |u| <= |s| && (s != [] ==> u != [] && u[|u| - 1] == s[|s| - 1])
  {
    if s == [] then []
    else
      var u, x := Uniq(s[..|s| - 1]), s[|s| - 1];
      if u != [] && u[|u| - 1] == x then u else u + [x]
  }

  lemma {:induction false} UniqMembers(s: seq<int>, y: int)
    ensures y in Uniq(s) <==> y in s
  {
    if s != [] {
      UniqMembers(s[..|s| - 1], y);
      assert s == s[..|s| - 1] + [s[|s| - 1]];
    }
  }

  lemma {:induction false} UniqIncreases(s: seq<int>)
    requires Sorted(s)
    ensures Increasing(Uniq(s))
  {
    if s != [] {
      var init := s[..|s| - 1];
      UniqIncreases(init);
      assert init != [] ==> Uniq(init)[|Uniq(init)| - 1] == s[|s| - 2] <= s[|s| - 1];
    }
  }

  /** Unique elements of a sorted array, in place. */
  method IntUnique(r: array<int>) returns (n: nat)
    requires Sorted(r[..])
    modifies r
    ensures n <= r.Length && r[..n] == Uniq(old(r[..]))
    ensures Increasing(r[..n]) && forall x :: x in r[..n] <==> x in old(r[..])
  {
    ghost var was := r[..];
    UniqIncreases(was);
    forall x ensures x in Uniq(was) <==> x in was { UniqMembers(was, x); }
    n := UniqueRuns(r);
  }

  method UniqueRuns(r: array<int>) returns (n: nat)
    modifies r
    ensures n <= r.Length && r[..n] == Uniq(old(r[..]))
  {
    ghost var was := r[..];
    if r.Length < 2 {
      assert r.Length == 1 ==> was[..0] == [] && Uniq(was) == was;
      return r.Length;
    }
    var tmp, dr := 0, 0;
    while tmp < r.Length
      invariant 0 <= dr <= tmp <= r.Length && dr < r.Length
      invariant forall i :: tmp <= i < r.Length ==> r[i] == was[i]
      invariant tmp == 0 ==> dr == 0
      invariant tmp > 0 ==> r[..dr + 1] == Uniq(was[..tmp])
    {
      assert was[..tmp + 1][..tmp] == was[..tmp];
      if r[tmp] != r[dr] {
        dr := dr + 1;
        r[dr] := r[tmp];
        assert r[..dr + 1] == Uniq(was[..tmp]) + [was[tmp]];
      }
      tmp := tmp + 1;
    }
    assert was[..tmp] == was;
    n := dr + 1;
  }

  /** Two sorted duplicate-free arrays: is b inside a? */
  method InnerIntContains(a: seq<int>, b: seq<int>) returns (res: bool)
    requires Increasing(a) && Increasing(b)
    ensures res <==> forall x :: x in b ==> x in a
  {
    var i, j, n := 0, 0, 0;
    while i < |a| && j < |b|
      invariant 0 <= i <= |a| && 0 <= j == n <= |b|
      invariant forall p :: 0 <= p < j ==> b[p] in a
      invariant j < |b| ==> forall p :: 0 <= p < i ==> a[p] < b[j]
    {
      if a[i] < b[j] {
        i := i + 1;
      } else if a[i] == b[j] {
        n := n + 1;
        i := i + 1;
        j := j + 1;
      } else {
        break;
      }
    }
    if n < |b| {
      assert b[j] in b;
      assert b[j] !in a;
    }
    res := n == |b|;
  }

  /** Two sorted arrays: have they an element in common? */
  method InnerIntOverlap(a: seq<int>, b: seq<int>) returns (res: bool)
    requires Sorted(a) && Sorted(b)
    ensures res <==> exists x :: x in a && x in b
  {
    var i, j := 0, 0;
    while i < |a| && j < |b|
      invariant 0 <= i <= |a| && 0 <= j <= |b|
      invariant forall p :: 0 <= p < i ==> a[p] !in b
      invariant forall p :: 0 <= p < j ==> b[p] !in a
      invariant j < |b| ==> forall p :: 0 <= p < i ==> a[p] < b[j]
      invariant i < |a| ==> forall p :: 0 <= p < j ==> b[p] < a[i]
    {
      if a[i] < b[j] {
        assert a[i] !in b;
        i := i + 1;
      } else if a[i] == b[j] {
        assert a[i] in a && a[i] in b;
        return true;
      } else {
        assert b[j] !in a;
        j := j + 1;
      }
    }
    res := false;
  }

  // ----- union -----

  function Joined(entries: seq<seq<int>>): seq<int> {
    if entries == [] then [] else Joined(entries[..|entries| - 1]) + entries[|entries| - 1]
  }

  lemma {:induction false} JoinedMembers(entries: seq<seq<int>>, x: int)
    ensures x in Joined(entries) <==> exists i :: 0 <= i < |entries| && x in entries[i]
  {
    if entries != [] {
      var n := |entries| - 1;
      JoinedMembers(entries[..n], x);
      assert x in Joined(entries) <==> x in Joined(entries[..n]) || x in entries[n];
      assert forall i :: 0 <= i < n ==> entries[..n][i] == entries[i];
    }
  }

  /** What qsort may leave of a. */
  ghost predicate Sorts(a: seq<int>, sorted: seq<int>) {
    Sorted(sorted) && multiset(sorted) == multiset(a)
  }

  lemma SortsMembers(a: seq<int>, sorted: seq<int>, x: int)
    requires Sorts(a, sorted)
    ensures x in sorted <==> x in a
  {
    assert x in sorted <==> x in multiset(sorted);
    assert x in a <==> x in multiset(a);
  }

  /** The key above entries; sorted is what qsort leaves of all their elements. */
  method GIntUnion(entries: seq<seq<int>>, sorted: seq<int>) returns (res: seq<int>)
    requires Sorts(Joined(entries), sorted)
    ensures Increasing(res)
    ensures forall x :: x in res <==> exists i :: 0 <= i < |entries| && x in entries[i]
  {
    res := Unique(sorted);
    forall x ensures x in res <==> exists i :: 0 <= i < |entries| && x in entries[i] {
      SortsMembers(Joined(entries), sorted, x);
      JoinedMembers(entries, x);
    }
  }

  method Unique(sorted: seq<int>) returns (res: seq<int>)
    requires Sorted(sorted)
    ensures Increasing(res) && forall x :: x in res <==> x in sorted
  {
    var r := new int[|sorted|](i requires 0 <= i < |sorted| => sorted[i]);
    assert r[..] == sorted;
    var n := IntUnique(r);
    res := r[..n];
  }

  // ----- consistency -----

  datatype Strategy = Overlap | Same | Contains | ContainedBy | Boolean(items: seq<Item>) | Other

  predicate Askable(s: Strategy) {
    s.Boolean? ==> Navigable(s.items, |s.items| - 1)
  }

  predicate Holding(items: seq<Item>, a: seq<int>, i: int) {
    0 <= i < |items| && items[i].val in a
  }

  /** What a search asks of a stored array. */
  ghost predicate Matches(x: seq<int>, query: seq<int>, s: Strategy)
    requires Askable(s)
  {
    match s
    case Overlap => exists v :: v in x && v in query
    case Same => forall v :: v in x <==> v in query
    case Contains => forall v :: v in query ==> v in x
    case ContainedBy => forall v :: v in x ==> v in query
    case Boolean(items) => Execute(items, |items| - 1, true, i => Holding(items, x, i))
    case Other => false
  }

  /** What the index asks of the key of a page. */
  ghost predicate PageTest(key: seq<int>, query: seq<int>, s: Strategy)
    requires Askable(s)
  {
    match s
    case Overlap => exists v :: v in key && v in query
    case Same => forall v :: v in query ==> v in key
    case Contains => forall v :: v in query ==> v in key
    case ContainedBy => exists v :: v in key && v in query
    case Boolean(items) => Execute(items, |items| - 1, false, i => Holding(items, key, i))
    case Other => false
  }

  /** Sorted duplicate-free arrays with the same elements are the same array. */
  lemma {:induction false} SameElements(a: seq<int>, b: seq<int>)
    requires Increasing(a) && Increasing(b) && forall v :: v in a <==> v in b
    ensures a == b
  {
    assert |a| > 0 ==> a[0] in a && a[0] in b;
    assert |b| > 0 ==> b[0] in b && b[0] in a;
    if a != [] && b != [] {
      var n, m := |a| - 1, |b| - 1;
      assert a[n] in b && b[m] in a;
      assert a[n] == b[m];
      assert a == a[..n] + [a[n]] && b == b[..m] + [b[m]];
      assert a[n] !in a[..n] && b[m] !in b[..m];
      forall v ensures v in a[..n] <==> v in b[..m] {
        assert v in a[..n] <==> v in a && v != a[n];
        assert v in b[..m] <==> v in b && v != b[m];
      }
      SameElements(a[..n], b[..m]);
    }
  }

  /** Recheck is asked for only where equality is. */
  method GIntConsistent(key: seq<int>, query: seq<int>, sorted: seq<int>, s: Strategy, leaf: bool)
    returns (res: bool, recheck: bool)
    requires Increasing(key) && Askable(s) && Sorts(query, sorted)
    ensures res <==> if leaf then Matches(key, query, s) else PageTest(key, query, s)
    ensures recheck <==> s == Same
  {
    recheck := s == Same;
    if s.Boolean? {
      res := Execute(s.items, |s.items| - 1, leaf, i => Holding(s.items, key, i));
      return;
    }
    var q := Unique(sorted);
    forall v ensures v in q <==> v in query { SortsMembers(query, sorted, v); }
    match s {
      case Overlap => res := InnerIntOverlap(key, q);
      case Same =>
        if leaf {
          res := key == q;
          if Matches(key, query, s) { SameElements(key, q); }
        } else {
          res := InnerIntContains(key, q);
        }
      case Contains => res := InnerIntContains(key, q);
      case ContainedBy =>
        if leaf { res := InnerIntContains(q, key); } else { res := InnerIntOverlap(key, q); }
      case Other => res := false;
    }
  }

  // ----- keys of any history -----

  predicate Holds(key: seq<int>, x: seq<int>) {
    forall v :: v in x ==> v in key
  }

  /** How the key of a page came about. */
  datatype History =
    | Leaf(x: seq<int>)
    | Union(parts: seq<History>, keys: seq<seq<int>>)
    | Squeezed(from: History, full: seq<int>, ranges: seq<int>, cuts: seq<int>)

  ghost predicate Made(h: History, key: seq<int>)
    decreases h
  {
    match h
    case Leaf(x) => forall v :: v in key <==> v in x
    case Union(parts, keys) =>
      && |keys| == |parts|
      && (forall i :: 0 <= i < |parts| ==> Made(parts[i], keys[i]))
      && (forall x :: x in key <==> exists i :: 0 <= i < |keys| && x in keys[i])
    case Squeezed(from, full, ranges, cuts) =>
      && Made(from, full)
      && Key(full) && Cuts(full, cuts) && Shows(ranges, full, cuts)
      && Ranges(ranges) && key == All(ranges)
  }

  ghost predicate Below(h: History, x: seq<int>)
    decreases h
  {
    match h
    case Leaf(y) => y == x
    case Union(parts, _) => exists i :: 0 <= i < |parts| && Below(parts[i], x)
    case Squeezed(from, _, _, _) => Below(from, x)
  }

  /** Through any number of unions and compressions a key keeps every element below it. */
  lemma {:induction false} HistoryHolds(h: History, key: seq<int>, x: seq<int>)
    requires Made(h, key) && Below(h, x)
    ensures Holds(key, x)
    decreases h
  {
    match h
    case Leaf(_) =>
    case Union(parts, keys) =>
      var i :| 0 <= i < |parts| && Below(parts[i], x);
      HistoryHolds(parts[i], keys[i], x);
    case Squeezed(from, full, ranges, cuts) =>
      HistoryHolds(from, full, x);
      RangesExpand(ranges, full, cuts);
  }

  /** A match below a page makes its key consistent, except that an empty array may hide from "contained by". */
  lemma MatchIsConsistent(key: seq<int>, x: seq<int>, query: seq<int>, s: Strategy)
    requires Askable(s) && Holds(key, x) && Matches(x, query, s)
    requires s == ContainedBy ==> x != []
    ensures PageTest(key, query, s)
  {
    match s
    case ContainedBy =>
      var v := x[0];
      assert v in x;
      assert v in key && v in query;
    case Boolean(items) =>
      LossyExecute(items, |items| - 1, i => Holding(items, x, i), i => Holding(items, key, i));
    case _ =>
  }

  /** Some array that may be stored below the key, and is not empty if it has to be contained, matches. */
  ghost predicate MayMatch(key: seq<int>, query: seq<int>, s: Strategy)
    requires Askable(s)
  {
    exists x :: Holds(key, x) && (s == ContainedBy ==> x != []) && Matches(x, query, s)
  }

  /** A page is entered exactly if it may hold a match. */
  lemma PageTestExactly(key: seq<int>, query: seq<int>, s: Strategy)
    requires !s.Boolean?
    ensures PageTest(key, query, s) <==> MayMatch(key, query, s)
  {
    if PageTest(key, query, s) {
      if s == Same || s == Contains {
        assert Holds(key, query) && Matches(query, query, s);
      } else if s == Overlap || s == ContainedBy {
        var v :| v in key && v in query;
        assert Holds(key, [v]) && v in [v] && Matches([v], query, s);
      }
    }
    forall x | Holds(key, x) && (s == ContainedBy ==> x != []) && Matches(x, query, s) ensures PageTest(key, query, s) {
      MatchIsConsistent(key, x, query, s);
    }
  }

  /** For a boolean query, NOT being taken as true: exactly if some way to make it true has its values in the key. */
  lemma BooleanPageExactly(key: seq<int>, query: seq<int>, items: seq<Item>, e: Expr)
    requires Rooted(items, |items| - 1, e)
    ensures Askable(Boolean(items))
    ensures PageTest(key, query, Boolean(items)) <==> SomeWay(e, v => v in key)
  {
    RelaxedExactly(items, |items| - 1, e, i => Holding(items, key, i), v => v in key);
  }

  /** A "contained by" search can rely on the keys exactly for arrays that are not empty. */
  lemma ContainedByExactly(x: seq<int>)
    ensures (forall key, query ::
      Holds(key, x) && Matches(x, query, ContainedBy) ==> PageTest(key, query, ContainedBy)) <==> x != []
  {
    if x == [] {
      assert Holds([], x) && Matches(x, [], ContainedBy) && !PageTest([], [], ContainedBy);
    } else {
      forall key, query | Holds(key, x) && Matches(x, query, ContainedBy) ensures PageTest(key, query, ContainedBy) {
        MatchIsConsistent(key, x, query, ContainedBy);
      }
    }
  }

  // ----- searching a tree -----

  /** The key of a page, and how it came about. */
  datatype Grown = Grown(history: History, key: seq<int>)

  /** Every array below a page went into the history of its key. */
  ghost predicate Tracks(t: Tree<Grown, seq<int>>)
    decreases t
  {
    t.Page? ==>
      && Made(t.key.history, t.key.key)
      && (forall x :: x in StoredIn(t.kids) ==> Below(t.key.history, x))
      && (forall i :: 0 <= i < |t.kids| ==> Tracks(t.kids[i]))
  }

  /** So every page key holds everything stored below the page. */
  lemma {:induction false} TrackedIsKept(t: Tree<Grown, seq<int>>)
    requires Tracks(t)
    ensures Kept(t, (g: Grown, x: seq<int>) => Holds(g.key, x))
    decreases t
  {
    if t.Page? {
      forall x | x in StoredIn(t.kids) ensures Holds(t.key.key, x) { HistoryHolds(t.key.history, t.key.key, x); }
      forall i | 0 <= i < |t.kids| ensures Kept(t.kids[i], (g: Grown, x: seq<int>) => Holds(g.key, x)) {
        TrackedIsKept(t.kids[i]);
      }
    }
  }

  /** A search through pages of any depth, with keys of any history, finds what a scan of the stored arrays finds. */
  lemma SearchIsScan(t: Tree<Grown, seq<int>>, query: seq<int>, s: Strategy, consistent: Grown -> bool,
                     test: seq<int> -> bool)
    requires Askable(s) && Tracks(t)
    requires forall g :: consistent(g) <==> PageTest(g.key, query, s)
    requires forall x :: test(x) <==> Matches(x, query, s)
    requires s == ContainedBy ==> forall x :: x in Stored(t) ==> x != []
    ensures Search(t, consistent, test) == Scan(Stored(t), test)
  {
    var holds := (g: Grown, x: seq<int>) => Holds(g.key, x);
    TrackedIsKept(t);
    forall g, x | holds(g, x) && x in Stored(t) && test(x) ensures consistent(g) {
      MatchIsConsistent(g.key, x, query, s);
    }
    SearchFindsAll(t, holds, consistent, test);
  }

  // ----- the histories that the methods make -----

  /** The union of keys has the union of their histories. */
  method UnionGrows(keys: seq<Grown>, sorted: seq<int>) returns (g: Grown)
    requires forall i :: 0 <= i < |keys| ==> Made(keys[i].history, keys[i].key)
    requires Sorts(Joined(KeysOf(keys)), sorted)
    ensures Made(g.history, g.key)
    ensures forall i, x :: 0 <= i < |keys| && Below(keys[i].history, x) ==> Below(g.history, x)
  {
    var res := GIntUnion(KeysOf(keys), sorted);
    g := Grown(Union(HistoriesOf(keys), KeysOf(keys)), res);
  }

  function KeysOf(keys: seq<Grown>): (ks: seq<seq<int>>)
    ensures |ks| == |keys| && forall i :: 0 <= i < |keys| ==> ks[i] == keys[i].key
  {
    seq(|keys|, i requires 0 <= i < |keys| => keys[i].key)
  }

  function HistoriesOf(keys: seq<Grown>): (hs: seq<History>)
    ensures |hs| == |keys| && forall i :: 0 <= i < |keys| ==> hs[i] == keys[i].history
  {
    seq(|keys|, i requires 0 <= i < |keys| => keys[i].history)
  }

  /** A key written to a page and read again keeps what is below it. */
  method ThroughPage(g: Grown) returns (r: Reading, ghost h: History)
    requires Made(g.history, g.key) && Increasing(g.key) && Int32s(g.key)
    ensures r.Read? ==> Increasing(r.elements) && Holds(r.elements, g.key)
    ensures r.Read? ==> Made(h, r.elements) && forall x :: Below(g.history, x) ==> Below(h, x)
  {
    var ranges, cuts := Compress(g.key);
    if |g.key| < 2 * MAX_RANGES {
      h := g.history;
    } else {
      h := Squeezed(g.history, g.key, ranges, cuts);
      RangesExpand(ranges, g.key, cuts);
      ShownInt32s(ranges, g.key, cuts);
    }
    r := Decompress(ranges);
  }

  lemma ShownInt32s(a: seq<int>, key: seq<int>, cuts: seq<int>)
    requires Key(key) && Cuts(key, cuts) && Shows(a, key, cuts)
    ensures Int32s(a)
  {
    forall i | 0 <= i < |a| ensures INT_MIN <= a[i] <= INT_MAX {
      var k := i / 2;
      assert a[2 * k] == Lo(key, cuts, k) && a[2 * k + 1] == Hi(key, cuts, k);
    }
  }
}
