/**
 Variable-length keys of btree_gist, for plain byte strings.  The key of an index node is a lower
 and an upper bound cut shortly after their common prefix; since a cut upper bound may lie below the
 strings it stands for, searching also accepts a node whose bound is a prefix of the query.
 */
module BtreeGist {
  import opened ByteOrder

  datatype Key = Key(lower: Bytes, upper: Bytes)

  datatype Strategy = Less | LessEqual | Equal | GreaterEqual | Greater | NotEqual

  // ----- building keys -----

  function BinUnion(u: Key, e: Key): Key {
    Key(if Cmp(u.lower, e.lower) > 0 then e.lower else u.lower,
        if Cmp(u.upper, e.upper) < 0 then e.upper else u.upper)
  }

  /** The bounds of several keys, not cut yet. */
  function Spread(ks: seq<Key>): Key
    requires |ks| > 0
  {
    if |ks| == 1 then ks[0] else BinUnion(Spread(ks[..|ks| - 1]), ks[|ks| - 1])
  }

  function NodeCp(k: Key): nat {
    CpLen(k.lower, k.upper)
  }

  function NodeTruncate(k: Key, cpfLength: nat): Key {
    Key(Take(k.lower, cpfLength + 1), Take(k.upper, cpfLength + 1))
  }

  function Union(ks: seq<Key>): Key
    requires |ks| > 0
  {
    NodeTruncate(Spread(ks), NodeCp(Spread(ks)) + 1)
  }

  // ----- searching -----

  predicate PfMatch(pf: Bytes, query: Bytes) {
    pf <= query
  }

  predicate NodePfMatch(k: Key, query: Bytes) {
    PfMatch(k.lower, query) || PfMatch(k.upper, query)
  }

  predicate Consistent(k: Key, query: Bytes, s: Strategy, isLeaf: bool) {
    match s
    case LessEqual => if isLeaf then Cmp(query, k.lower) >= 0 else Cmp(query, k.lower) >= 0 || NodePfMatch(k, query)
    case Less => if isLeaf then Cmp(query, k.lower) > 0 else Cmp(query, k.lower) >= 0 || NodePfMatch(k, query)
    case Equal =>
      if isLeaf then query == k.lower
      else (Cmp(k.lower, query) <= 0 && Cmp(query, k.upper) <= 0) || NodePfMatch(k, query)
    case Greater => if isLeaf then Cmp(query, k.upper) < 0 else Cmp(query, k.upper) <= 0 || NodePfMatch(k, query)
    case GreaterEqual => if isLeaf then Cmp(query, k.upper) <= 0 else Cmp(query, k.upper) <= 0 || NodePfMatch(k, query)
    case NotEqual => !(query == k.lower && query == k.upper)
  }

  /** What the operator itself says of a stored string. */
  predicate Matches(x: Bytes, query: Bytes, s: Strategy) {
    match s
    case Less => Cmp(x, query) < 0
    case LessEqual => Cmp(x, query) <= 0
    case Equal => x == query
    case GreaterEqual => Cmp(x, query) >= 0
    case Greater => Cmp(x, query) > 0
    case NotEqual => x != query
  }

  // ----- the invariant between a key and the strings below it -----

  /** The upper bound has been cut, and reaches at least two bytes beyond the common prefix. */
  predicate Cut(k: Key) {
    |k.upper| >= NodeCp(k) + 2
  }

  /** x may be stored below a node with key k. */
  ghost predicate Holds(k: Key, x: Bytes) {
    Leq(k.lower, x) && (Leq(x, k.upper) || (k.upper <= x && Cut(k)))
  }

  ghost predicate Proper(k: Key) {
    Leq(k.lower, k.upper)
  }

  ghost predicate AllProper(ks: seq<Key>) {
    forall i :: 0 <= i < |ks| ==> Proper(ks[i])
  }

  lemma {:induction false} SpreadBounds(ks: seq<Key>, i: nat)
    requires i < |ks|
    ensures Leq(Spread(ks).lower, ks[i].lower) && Leq(ks[i].upper, Spread(ks).upper)
  {
    var n := |ks| - 1;
    if n == 0 {
      CmpFlip(ks[i].lower, ks[i].lower);
      CmpFlip(ks[i].upper, ks[i].upper);
    } else {
      var u := Spread(ks[..n]);
      CmpFlip(u.lower, ks[n].lower);
      CmpFlip(u.upper, ks[n].upper);
      CmpFlip(u.lower, u.lower);
      CmpFlip(u.upper, u.upper);
      CmpFlip(ks[n].lower, ks[n].lower);
      CmpFlip(ks[n].upper, ks[n].upper);
      if i < n {
        SpreadBounds(ks[..n], i);
        LeqTransitive(Spread(ks).lower, u.lower, ks[i].lower);
        LeqTransitive(ks[i].upper, u.upper, Spread(ks).upper);
      }
    }
  }

  /** The least lower and the greatest upper bound among the keys. */
  ghost predicate Bounds(ks: seq<Key>, b: Key) {
    && (exists i :: 0 <= i < |ks| && b.lower == ks[i].lower)
    && (exists i :: 0 <= i < |ks| && b.upper == ks[i].upper)
    && (forall i :: 0 <= i < |ks| ==> Leq(b.lower, ks[i].lower) && Leq(ks[i].upper, b.upper))
  }

  lemma {:induction false} SpreadFromParts(ks: seq<Key>)
    requires |ks| > 0
    ensures exists i :: 0 <= i < |ks| && Spread(ks).lower == ks[i].lower
    ensures exists i :: 0 <= i < |ks| && Spread(ks).upper == ks[i].upper
  {
    if |ks| == 1 {
      assert Spread(ks) == ks[0];
    } else {
      var n := |ks| - 1;
      SpreadFromParts(ks[..n]);
      var i :| 0 <= i < n && Spread(ks[..n]).lower == ks[..n][i].lower;
      var j :| 0 <= j < n && Spread(ks[..n]).upper == ks[..n][j].upper;
      assert ks[..n][i] == ks[i] && ks[..n][j] == ks[j];
    }
  }

  lemma SpreadExactly(ks: seq<Key>, b: Key)
    requires |ks| > 0
    ensures Bounds(ks, b) <==> b == Spread(ks)
  {
    var s := Spread(ks);
    SpreadFromParts(ks);
    forall i | 0 <= i < |ks| ensures Leq(s.lower, ks[i].lower) && Leq(ks[i].upper, s.upper) { SpreadBounds(ks, i); }
    if Bounds(ks, b) {
      CmpFlip(b.lower, s.lower);
      CmpFlip(b.upper, s.upper);
    }
  }

  /** Both bounds, no longer than n. */
  function CutAt(b: Key, n: nat): Key {
    Key(Take(b.lower, n), Take(b.upper, n))
  }

  /** k is the least lower and the greatest upper bound, cut two bytes beyond what they have in common. */
  ghost predicate UnionOfBounds(ks: seq<Key>, k: Key) {
    exists b :: Bounds(ks, b) && k == CutAt(b, CpLen(b.lower, b.upper) + 2)
  }

  lemma UnionExactly(ks: seq<Key>)
    requires |ks| > 0
    ensures UnionOfBounds(ks, Union(ks))
  {
    SpreadExactly(ks, Spread(ks));
  }

  lemma SpreadProper(ks: seq<Key>)
    requires |ks| > 0 && AllProper(ks)
    ensures Proper(Spread(ks))
  {
    SpreadBounds(ks, 0);
    LeqTransitive(Spread(ks).lower, ks[0].lower, ks[0].upper);
    LeqTransitive(Spread(ks).lower, ks[0].upper, Spread(ks).upper);
  }

  /** The common prefix of the bounds is no longer than that of any part. */
  lemma SpreadCp(ks: seq<Key>, i: nat)
    requires i < |ks| && AllProper(ks)
    ensures NodeCp(Spread(ks)) <= NodeCp(ks[i])
  {
    var s, k := Spread(ks), ks[i];
    SpreadBounds(ks, i);
    LeqTransitive(k.lower, k.upper, s.upper);
    LeqTransitive(s.lower, k.lower, k.upper);
    BetweenShares(s.lower, k.lower, s.upper);
    BetweenShares(s.lower, k.upper, s.upper);
    CpLenLeast(k.lower, k.upper, NodeCp(s));
  }

  /** A part whose upper bound was cut, while the new upper bound runs on past it and not only with the largest byte. */
  ghost predicate Exposed(k: Key, upper: Bytes) {
    Cut(k) && k.upper < upper && exists j :: |k.upper| <= j < |upper| && upper[j] < 255
  }

  /** Above everything that starts with upper[..j], but not above all extensions of k.upper. */
  lemma ExposedEscapes(k: Key, upper: Bytes, j: nat) returns (x: Bytes)
    requires Cut(k) && Proper(k) && k.upper < upper && |k.upper| <= j < |upper| && upper[j] < 255
    ensures Holds(k, x) && !Leq(x, upper) && !(upper <= x)
  {
    var next: Byte := upper[j] + 1;
    x := upper[..j] + [next];
    PrefixLeq(k.upper, x);
    LeqTransitive(k.lower, k.upper, x);
    Bump(upper, j, x);
    CmpFlip(x, upper);
  }

  lemma {:induction false} Bump(u: Bytes, j: nat, x: Bytes)
    requires j < |u| && |x| == j + 1 && x[..j] == u[..j] && x[j] > u[j]
    ensures Cmp(x, u) > 0 && !(u <= x)
  {
    if j > 0 {
      assert x[0] == x[..j][0] == u[..j][0] == u[0];
      assert x[1..][..j - 1] == x[..j][1..];
      assert u[1..][..j - 1] == u[..j][1..];
      Bump(u[1..], j - 1, x[1..]);
    }
  }

  /** Followed by the largest byte only, nothing that starts with p lies above u unless it starts with u. */
  lemma {:induction false} LargestBytes(p: Bytes, u: Bytes, x: Bytes)
    requires p <= u && p <= x && forall j :: |p| <= j < |u| ==> u[j] == 255
    ensures Leq(x, u) || u <= x
  {
    if u != [] && x != [] {
      if p != [] {
        assert p[0] == u[0] == x[0];
        LargestBytes(p[1..], u[1..], x[1..]);
      } else if x[0] == u[0] {
        LargestBytes([], u[1..], x[1..]);
      }
      if x[0] == u[0] && u[1..] <= x[1..] { assert u == [u[0]] + u[1..] && x == [x[0]] + x[1..]; }
    }
  }

  ghost predicate CutKey(ks: seq<Key>, t: nat, k': Key)
    requires |ks| > 0
  {
    t >= NodeCp(Spread(ks)) + 2 && k' == Key(Take(Spread(ks).lower, t), Take(Spread(ks).upper, t))
  }

  lemma CutKeyShape(ks: seq<Key>, t: nat, k': Key)
    requires |ks| > 0 && AllProper(ks) && CutKey(ks, t, k')
    ensures Proper(k') && NodeCp(k') == NodeCp(Spread(ks))
    ensures k'.upper <= Spread(ks).upper && (k'.upper == Spread(ks).upper || |k'.upper| == t)
  {
    SpreadProper(ks);
    TakeMonotone(Spread(ks).lower, Spread(ks).upper, t);
    CpLenTake(Spread(ks).lower, Spread(ks).upper, t);
  }

  /** What a part holds, a cut key holds too, unless the part is exposed. */
  lemma CutKeyHolds(ks: seq<Key>, t: nat, k': Key, i: nat, x: Bytes)
    requires i < |ks| && AllProper(ks) && CutKey(ks, t, k')
    requires Holds(ks[i], x) && !Exposed(ks[i], k'.upper)
    ensures Holds(k', x)
  {
    var s, k := Spread(ks), ks[i];
    CutKeyShape(ks, t, k');
    SpreadBounds(ks, i);
    SpreadCp(ks, i);
    PrefixLeq(k'.lower, s.lower);
    LeqTransitive(k'.lower, s.lower, k.lower);
    LeqTransitive(k'.lower, k.lower, x);
    CmpFlip(x, k'.upper);
    if Leq(x, k'.upper) {
    } else if Leq(x, k.upper) {
      LeqTransitive(x, k.upper, s.upper);
      Sandwich(k'.upper, x, s.upper);
      CmpFlip(x, s.upper);
    } else {
      OverflowHolds(s, k, k', t, x);
    }
  }

  /** The case of a string above its own bound and above the new one. */
  lemma OverflowHolds(s: Key, k: Key, k': Key, t: nat, x: Bytes)
    requires t >= NodeCp(s) + 2 && k'.upper <= s.upper && (k'.upper == s.upper || |k'.upper| == t)
    requires NodeCp(k') == NodeCp(s) <= NodeCp(k) && Leq(k.upper, s.upper)
    requires k.upper <= x && Cut(k) && !Leq(x, k'.upper) && !Exposed(k, k'.upper)
    ensures k'.upper <= x && Cut(k')
  {
    if k'.upper <= k.upper {
      if k'.upper == s.upper {
        PrefixLeq(s.upper, k.upper);
        CmpFlip(s.upper, k.upper);
      }
    } else if k.upper <= k'.upper {
      LargestBytes(k.upper, k'.upper, x);
    } else {
      CutLeq(k.upper, s.upper, k'.upper);
      Diverge(k.upper, k'.upper, x, k'.upper);
    }
  }

  /** A string at or below u that parts from a prefix of u is below that prefix. */
  lemma CutLeq(a: Bytes, u: Bytes, p: Bytes)
    requires p <= u && Leq(a, u) && !(p <= a)
    ensures Leq(a, p)
  {
    CmpFlip(a, p);
    if !Leq(a, p) { Sandwich(p, a, u); }
  }

  /**
   Cutting the bounds of several keys, anywhere from two bytes past their common prefix on, keeps
   every string that the keys may hold exactly when no key is exposed.
   */
  lemma CutKeyExactly(ks: seq<Key>, t: nat, k': Key)
    requires |ks| > 0 && AllProper(ks) && CutKey(ks, t, k')
    ensures (forall i, x :: 0 <= i < |ks| && Holds(ks[i], x) ==> Holds(k', x)) <==>
            !exists i :: 0 <= i < |ks| && Exposed(ks[i], k'.upper)
  {
    if i :| 0 <= i < |ks| && Exposed(ks[i], k'.upper) {
      var j :| |ks[i].upper| <= j < |k'.upper| && k'.upper[j] < 255;
      var x := ExposedEscapes(ks[i], k'.upper, j);
      assert Holds(ks[i], x) && !Holds(k', x);
    } else {
      forall i, x | 0 <= i < |ks| && Holds(ks[i], x) ensures Holds(k', x) { CutKeyHolds(ks, t, k', i, x); }
    }
  }

  /** A union is cut so short that no part is exposed. */
  lemma UnionHolds(ks: seq<Key>, i: nat, x: Bytes)
    requires i < |ks| && AllProper(ks) && Holds(ks[i], x)
    ensures Holds(Union(ks), x)
  {
    SpreadCp(ks, i);
    CutKeyHolds(ks, NodeCp(Spread(ks)) + 2, Union(ks), i, x);
  }

  lemma UnionProper(ks: seq<Key>)
    requires |ks| > 0 && AllProper(ks)
    ensures Proper(Union(ks))
  {
    CutKeyShape(ks, NodeCp(Spread(ks)) + 2, Union(ks));
  }

  // ----- keys over a whole history -----

  /** How a key came about: from a datum, as a union of keys, or as one side of a split of data. */
  datatype History =
    | Datum(x: Bytes)
    | UnionOf(parts: seq<History>)
    | SplitOf(data: seq<Bytes>, extra: nat)

  function DatumKeys(data: seq<Bytes>): (ks: seq<Key>)
    ensures |ks| == |data| && forall i :: 0 <= i < |data| ==> ks[i] == Key(data[i], data[i])
  {
    seq(|data|, i requires 0 <= i < |data| => Key(data[i], data[i]))
  }

  predicate Possible(h: History) {
    match h
    case Datum(_) => true
    case UnionOf(ps) => |ps| > 0 && forall i :: 0 <= i < |ps| ==> Possible(ps[i])
    case SplitOf(data, _) => |data| > 0
  }

  function KeyOf(h: History): Key
    requires Possible(h)
    decreases h
  {
    match h
    case Datum(x) => Key(x, x)
    case UnionOf(ps) => Union(KeysOf(ps))
    case SplitOf(data, extra) => var s := Spread(DatumKeys(data)); NodeTruncate(s, NodeCp(s) + extra + 1)
  }

  function KeysOf(ps: seq<History>): (ks: seq<Key>)
    requires forall i :: 0 <= i < |ps| ==> Possible(ps[i])
    ensures |ks| == |ps| && forall i :: 0 <= i < |ps| ==> ks[i] == KeyOf(ps[i])
    decreases ps
  {
    if ps == [] then [] else [KeyOf(ps[0])] + KeysOf(ps[1..])
  }

  predicate Contains(h: History, x: Bytes) {
    match h
    case Datum(y) => x == y
    case UnionOf(ps) => exists i :: 0 <= i < |ps| && Contains(ps[i], x)
    case SplitOf(data, _) => x in data
  }

  lemma DatumHolds(x: Bytes)
    ensures Proper(Key(x, x)) && Holds(Key(x, x), x)
    ensures !Cut(Key(x, x))
  {
    CmpFlip(x, x);
    CpLenLeast(x, x, |x|);
  }

  /** Whatever its history, a key holds every string that went into it. */
  lemma {:induction false} HistoryHolds(h: History, x: Bytes)
    requires Possible(h)
    ensures Proper(KeyOf(h))
    ensures Contains(h, x) ==> Holds(KeyOf(h), x)
    decreases h
  {
    match h
    case Datum(y) => DatumHolds(y);
    case UnionOf(ps) =>
      var ks := KeysOf(ps);
      forall i | 0 <= i < |ps| ensures Proper(ks[i]) && (Contains(ps[i], x) ==> Holds(ks[i], x)) {
        HistoryHolds(ps[i], x);
      }
      UnionProper(ks);
      if i :| 0 <= i < |ps| && Contains(ps[i], x) { UnionHolds(ks, i, x); }
    case SplitOf(data, extra) =>
      var ks := DatumKeys(data);
      forall i | 0 <= i < |data| ensures Proper(ks[i]) && !Cut(ks[i]) && Holds(ks[i], data[i]) { DatumHolds(data[i]); }
      var t := NodeCp(Spread(ks)) + extra + 2;
      CutKeyShape(ks, t, KeyOf(h));
      if x in data {
        var i :| 0 <= i < |data| && data[i] == x;
        CutKeyHolds(ks, t, KeyOf(h), i, x);
      }
  }

  /** A key that may hold a match is not pruned, whatever the strategy. */
  lemma HeldMatchIsConsistent(k: Key, x: Bytes, query: Bytes, s: Strategy)
    requires Holds(k, x) && Matches(x, query, s)
    ensures Consistent(k, query, s, false)
  {
    CmpFlip(x, query);
    CmpFlip(query, k.lower);
    CmpFlip(query, k.upper);
    match s
    case Less => LeqTransitive(k.lower, x, query);
    case LessEqual => LeqTransitive(k.lower, x, query);
    case Equal =>
    case GreaterEqual => HeldAbove(k, x, query);
    case Greater => HeldAbove(k, x, query);
    case NotEqual =>
      if query == k.lower && query == k.upper {
        CpLenLeast(query, query, |query|);
        CmpFlip(x, query);
      }
  }

  lemma HeldAbove(k: Key, x: Bytes, query: Bytes)
    requires Holds(k, x) && Leq(query, x)
    ensures Leq(query, k.upper) || k.upper <= query
  {
    CmpFlip(query, k.upper);
    if Leq(x, k.upper) {
      LeqTransitive(query, x, k.upper);
    } else if !Leq(query, k.upper) {
      Sandwich(k.upper, query, x);
    }
  }

  // ----- which pages are entered -----

  /** Some string that matches may be stored below k. */
  ghost predicate MayMatch(k: Key, query: Bytes, s: Strategy) {
    exists x :: Holds(k, x) && Matches(x, query, s)
  }

  /** The query starts with a bound, and nothing below k is as large. */
  ghost predicate Beyond(k: Key, query: Bytes) {
    NodePfMatch(k, query) && Cmp(query, k.upper) > 0 && !(k.upper <= query && Cut(k))
  }

  /**
   Pages entered although they hold no match: for <, a query equal to the lower bound; for =, >= and >, a
   query beyond the upper bound that starts with one of the bounds; for >, also one equal to an upper
   bound that has not been cut.
   */
  ghost predicate EnteredInVain(k: Key, query: Bytes, s: Strategy) {
    match s
    case Less => query == k.lower
    case Equal => Beyond(k, query)
    case GreaterEqual => Beyond(k, query)
    case Greater => Beyond(k, query) || (query == k.upper && !Cut(k))
    case LessEqual => false
    case NotEqual => false
  }

  /** A page is entered exactly if it may hold a match, or in one of the cases above; and these are all in vain. */
  lemma EnteredExactly(k: Key, query: Bytes, s: Strategy)
    requires Proper(k)
    ensures Consistent(k, query, s, false) <==> MayMatch(k, query, s) || EnteredInVain(k, query, s)
    ensures !(MayMatch(k, query, s) && EnteredInVain(k, query, s))
  {
    CmpFlip(query, k.lower);
    CmpFlip(query, k.upper);
    BoundsHeld(k);
    if PfMatch(k.lower, query) { PrefixLeq(k.lower, query); }
    if PfMatch(k.upper, query) { PrefixLeq(k.upper, query); LeqTransitive(k.lower, k.upper, query); }
    match s
    case Less => EnteredBelow(k, query);
    case LessEqual => EnteredBelow(k, query);
    case Equal =>
      assert MayMatch(k, query, s) <==> Holds(k, query);
    case Greater => EnteredAbove(k, query);
    case GreaterEqual => EnteredAbove(k, query);
    case NotEqual => EnteredUnequal(k, query);
  }

  lemma BoundsHeld(k: Key)
    requires Proper(k)
    ensures Holds(k, k.lower) && Holds(k, k.upper)
  {
    CmpFlip(k.lower, k.lower);
    CmpFlip(k.upper, k.upper);
  }

  lemma EnteredBelow(k: Key, query: Bytes)
    requires Proper(k)
    ensures MayMatch(k, query, Less) <==> Cmp(k.lower, query) < 0
    ensures MayMatch(k, query, LessEqual) <==> Leq(k.lower, query)
  {
    BoundsHeld(k);
    assert Leq(k.lower, query) ==> Matches(k.lower, query, LessEqual);
    assert Cmp(k.lower, query) < 0 ==> Matches(k.lower, query, Less);
    forall x | Holds(k, x) && Matches(x, query, LessEqual) ensures Leq(k.lower, query) {
      LeqTransitive(k.lower, x, query);
    }
    forall x | Holds(k, x) && Matches(x, query, Less) ensures Cmp(k.lower, query) < 0 {
      LeqTransitive(k.lower, x, query);
    }
  }

  /** Above the bound only extensions of a cut bound are held. */
  lemma EnteredAbove(k: Key, query: Bytes)
    requires Proper(k)
    ensures MayMatch(k, query, GreaterEqual) <==> Leq(query, k.upper) || (k.upper <= query && Cut(k))
    ensures MayMatch(k, query, Greater) <==> Cmp(query, k.upper) < 0 || (k.upper <= query && Cut(k))
  {
    BoundsHeld(k);
    CmpFlip(query, k.upper);
    assert Leq(query, k.upper) ==> Matches(k.upper, query, GreaterEqual);
    assert Cmp(query, k.upper) < 0 ==> Matches(k.upper, query, Greater);
    if k.upper <= query && Cut(k) {
      var x := query + [0];
      PrefixLeq(k.upper, x);
      LeqTransitive(k.lower, k.upper, x);
      PrefixLeq(query, x);
      CmpFlip(query, x);
      assert Holds(k, x) && Matches(x, query, Greater) && Matches(x, query, GreaterEqual);
    }
    forall x | Holds(k, x) && Matches(x, query, GreaterEqual)
      ensures Leq(query, k.upper) || (k.upper <= query && Cut(k))
      ensures Matches(x, query, Greater) ==> Cmp(query, k.upper) < 0 || (k.upper <= query && Cut(k))
    {
      CmpFlip(x, query);
      HeldAbove(k, x, query);
      if Leq(x, k.upper) { LeqTransitive(query, x, k.upper); }
    }
  }

  lemma EnteredUnequal(k: Key, query: Bytes)
    requires Proper(k)
    ensures MayMatch(k, query, NotEqual) <==> query != k.lower || query != k.upper
  {
    BoundsHeld(k);
    assert query != k.lower ==> Matches(k.lower, query, NotEqual);
    assert query != k.upper ==> Matches(k.upper, query, NotEqual);
    if query == k.lower == k.upper {
      CpLenLeast(query, query, |query|);
      forall x | Holds(k, x) ensures x == query { CmpFlip(x, query); CmpFlip(query, x); }
    }
  }

  lemma LeafIsExact(x: Bytes, query: Bytes, s: Strategy)
    ensures Consistent(Key(x, x), query, s, true) <==> Matches(x, query, s)
  {
    CmpFlip(x, query);
  }

  // ----- searching a tree -----

  /** An index: stored strings, and pages reached through a key with some history. */
  datatype Tree = Entry(x: Bytes) | Page(history: History, kids: seq<Tree>)

  function Stored(t: Tree): seq<Bytes>
    decreases t
  {
    match t
    case Entry(x) => [x]
    case Page(_, kids) => StoredIn(kids)
  }

  function StoredIn(kids: seq<Tree>): seq<Bytes>
    decreases kids
  {
    if kids == [] then [] else Stored(kids[0]) + StoredIn(kids[1..])
  }

  /** Every string below a page went into the history of its key. */
  ghost predicate Tracks(t: Tree) {
    match t
    case Entry(_) => true
    case Page(h, kids) =>
      Possible(h) && (forall x :: x in StoredIn(kids) ==> Contains(h, x)) && forall i ::
        0 <= i < |kids| ==> Tracks(kids[i])
  }

  function Search(t: Tree, query: Bytes, s: Strategy): seq<Bytes>
    requires Tracks(t)
    decreases t
  {
    match t
    case Entry(x) => if Consistent(Key(x, x), query, s, true) then [x] else []
    case Page(h, kids) => if Consistent(KeyOf(h), query, s, false) then SearchIn(kids, query, s) else []
  }

  function SearchIn(kids: seq<Tree>, query: Bytes, s: Strategy): seq<Bytes>
    requires forall i :: 0 <= i < |kids| ==> Tracks(kids[i])
    decreases kids
  {
    if kids == [] then [] else Search(kids[0], query, s) + SearchIn(kids[1..], query, s)
  }

  /** The reference: look at every stored string. */
  function Scan(xs: seq<Bytes>, query: Bytes, s: Strategy): seq<Bytes> {
    if xs == [] then [] else (if Matches(xs[0], query, s) then [xs[0]] else []) + Scan(xs[1..], query, s)
  }

  lemma {:induction false} ScanConcat(a: seq<Bytes>, b: seq<Bytes>, query: Bytes, s: Strategy)
    ensures Scan(a + b, query, s) == Scan(a, query, s) + Scan(b, query, s)
  {
    if a == [] {
      assert a + b == b;
    } else {
      ScanConcat(a[1..], b, query, s);
      var head := if Matches(a[0], query, s) then [a[0]] else [];
      assert (a + b)[0] == a[0] && (a + b)[1..] == a[1..] + b;
      assert head + (Scan(a[1..], query, s) + Scan(b, query, s)) == head + Scan(a[1..], query, s) + Scan(b, query, s);
    }
  }

  lemma {:induction false} ScanNothing(xs: seq<Bytes>, query: Bytes, s: Strategy)
    requires forall x :: x in xs ==> !Matches(x, query, s)
    ensures Scan(xs, query, s) == []
  {
    if xs != [] { assert xs[0] in xs; ScanNothing(xs[1..], query, s); }
  }

  /** Searching an index, at any depth and with any history of its keys, is scanning what it stores. */
  lemma {:induction false} SearchIsScan(t: Tree, query: Bytes, s: Strategy)
    requires Tracks(t)
    ensures Search(t, query, s) == Scan(Stored(t), query, s)
    decreases t
  {
    match t
    case Entry(x) => LeafIsExact(x, query, s); assert Scan([x][1..], query, s) == [];
    case Page(h, kids) =>
      SearchInIsScan(kids, query, s);
      if !Consistent(KeyOf(h), query, s, false) {
        forall x | x in StoredIn(kids) ensures !Matches(x, query, s) {
          HistoryHolds(h, x);
          if Matches(x, query, s) { HeldMatchIsConsistent(KeyOf(h), x, query, s); }
        }
        ScanNothing(StoredIn(kids), query, s);
      }
  }

  lemma {:induction false} SearchInIsScan(kids: seq<Tree>, query: Bytes, s: Strategy)
    requires forall i :: 0 <= i < |kids| ==> Tracks(kids[i])
    ensures SearchIn(kids, query, s) == Scan(StoredIn(kids), query, s)
    decreases kids
  {
    if kids != [] {
      SearchIsScan(kids[0], query, s);
      SearchInIsScan(kids[1..], query, s);
      ScanConcat(Stored(kids[0]), StoredIn(kids[1..]), query, s);
    }
  }
}
