/** The loops that compute node keys, and splitting a page. */
module BtreeGistOps {
  import opened ByteOrder
  import opened BtreeGist

  method VarNodeCpLen(node: Key) returns (p: nat)
    ensures p == NodeCp(node)
  {
    var ml := if |node.lower| < |node.upper| then |node.lower| else |node.upper|;
    if ml == 0 { return 0; }
    var i := 0;
    while i < ml
      invariant 0 <= i <= ml
      invariant NodeCp(node) == i + CpLen(node.lower[i..], node.upper[i..])
    {
      assert node.lower[i..][1..] == node.lower[i + 1..] && node.upper[i..][1..] == node.upper[i + 1..];
      if node.lower[i] != node.upper[i] { return i; }
      i := i + 1;
    }
    return ml;
  }

  method VarUnion(entries: seq<Key>) returns (out: Key)
    requires |entries| > 0
    ensures out == Union(entries)
    ensures UnionOfBounds(entries, out)
  {
    out := entries[0];
    assert entries[..1] == [entries[0]];
    for i := 1 to |entries|
      invariant out == Spread(entries[..i])
    {
      assert entries[..i + 1][..i] == entries[..i];
      out := BinUnion(out, entries[i]);
    }
    assert entries[..|entries|] == entries;
    var plen := VarNodeCpLen(out);
    out := NodeTruncate(out, plen + 1);
    UnionExactly(entries);
  }

  predicate Within(entries: seq<Key>, offsets: seq<nat>) {
    forall i :: 0 <= i < |offsets| ==> offsets[i] < |entries|
  }

  function At(entries: seq<Key>, offsets: seq<nat>): (ks: seq<Key>)
    requires Within(entries, offsets)
    ensures |ks| == |offsets| && forall i :: 0 <= i < |offsets| ==> ks[i] == entries[offsets[i]]
  {
    seq(|offsets|, i requires 0 <= i < |offsets| => entries[offsets[i]])
  }

  function Max(a: nat, b: nat): nat {
    if a < b then b else a
  }

  /** One side of a split, cut after the longer of the two common prefixes. */
  function SideKey(side: seq<Key>, other: seq<Key>): Key
    requires |side| > 0 && |other| > 0
  {
    NodeTruncate(Spread(side), Max(NodeCp(Spread(side)), NodeCp(Spread(other))) + 1)
  }

  function SpreadAt(entries: seq<Key>, offsets: seq<nat>): Key
    requires |offsets| > 0 && Within(entries, offsets)
  {
    Spread(At(entries, offsets))
  }

  /** One more entry on a side; the first one starts its key. */
  method Extend(entries: seq<Key>, offsets: seq<nat>, datum: Key, next: nat) returns (k: Key)
    requires next < |entries| && Within(entries, offsets)
    requires offsets != [] ==> datum == SpreadAt(entries, offsets)
    ensures k == SpreadAt(entries, offsets + [next])
  {
    k := if offsets == [] then entries[next] else BinUnion(datum, entries[next]);
    assert At(entries, offsets + [next])[..|offsets|] == At(entries, offsets);
  }

  function Offsets(n: nat): (os: seq<nat>)
    ensures |os| == n && forall i :: 0 <= i < n ==> os[i] == i
  {
    seq(n, i requires 0 <= i < n => i)
  }

  /** The order by lower, then upper bound. */
  predicate NotAfter(k: Key, k': Key) {
    Cmp(k.lower, k'.lower) < 0 || (Cmp(k.lower, k'.lower) == 0 && Cmp(k.upper, k'.upper) <= 0)
  }

  /** What sorting leaves of the offsets of the entries. */
  ghost predicate Arranged(entries: seq<Key>, order: seq<nat>) {
    && |order| == |entries| && multiset(order) == multiset(Offsets(|entries|))
    && (forall i :: 0 <= i < |order| ==> order[i] < |entries|)
    && forall i, j :: 0 <= i < j < |order| ==> NotAfter(entries[order[i]], entries[order[j]])
  }

  lemma {:induction false} OffsetOnce(n: nat, o: nat)
    ensures multiset(Offsets(n))[o] == if o < n then 1 else 0
  {
    if n > 0 {
      OffsetOnce(n - 1, o);
      assert Offsets(n) == Offsets(n - 1) + [n - 1];
    }
  }

  /** Every offset goes to exactly one side. */
  lemma SidesPartition(n: nat, left: seq<nat>, right: seq<nat>, o: nat)
    requires o < n && multiset(left) + multiset(right) == multiset(Offsets(n))
    ensures o in left <==> o !in right
  {
    OffsetOnce(n, o);
    assert (multiset(left) + multiset(right))[o] == 1;
    assert (o in left <==> o in multiset(left)) && (o in right <==> o in multiset(right));
  }

  /** order lists the offsets of the entries; the first half goes left. */
  method Distribute(entries: seq<Key>, order: seq<nat>)
    returns (left: seq<nat>, right: seq<nat>, ldatum: Key, rdatum: Key)
    requires |order| == |entries| >= 2 && Within(entries, order)
    ensures left == order[..|order| / 2] && right == order[|order| / 2..]
    ensures ldatum == SpreadAt(entries, left) && rdatum == SpreadAt(entries, right)
  {
    var half := |order| / 2;
    left, right := [], [];
    ldatum, rdatum := entries[0], entries[0];
    var i := 0;
    while i < |order|
      invariant 0 <= i <= |order|
      invariant left == order[..if i <= half then i else half]
      invariant right == order[half..Max(i, half)]
      invariant left != [] ==> ldatum == SpreadAt(entries, left)
      invariant right != [] ==> rdatum == SpreadAt(entries, right)
    {
      if i + 1 <= half {
        ldatum := Extend(entries, left, ldatum, order[i]);
        left := left + [order[i]];
      } else {
        rdatum := Extend(entries, right, rdatum, order[i]);
        right := right + [order[i]];
      }
      i := i + 1;
    }
  }

  lemma SplitArranged(entries: seq<Key>, order: seq<nat>, left: seq<nat>, right: seq<nat>)
    requires Arranged(entries, order) && order == left + right
    ensures forall o: nat :: o < |entries| ==> (o in left <==> o !in right)
    ensures forall i, j ::
      i in left && j in right ==> i < |entries| && j < |entries| && NotAfter(entries[i], entries[j])
  {
    assert multiset(left) + multiset(right) == multiset(Offsets(|entries|));
    forall o: nat | o < |entries| ensures o in left <==> o !in right { SidesPartition(|entries|, left, right, o); }
    forall i, j | i in left && j in right ensures i < |entries| && j < |entries| && NotAfter(entries[i], entries[j]) {
      var p :| 0 <= p < |left| && left[p] == i;
      var q :| 0 <= q < |right| && right[q] == j;
      assert order[p] == i && order[|left| + q] == j;
    }
  }

  method VarPickSplit(entries: seq<Key>, order: seq<nat>)
    returns (left: seq<nat>, right: seq<nat>, ldatum: Key, rdatum: Key)
    requires |entries| >= 2 && Arranged(entries, order)
    ensures left == order[..|order| / 2] && right == order[|order| / 2..]
    ensures forall o: nat :: o < |entries| ==> (o in left <==> o !in right)
    ensures forall i, j ::
      i in left && j in right ==> i < |entries| && j < |entries| && NotAfter(entries[i], entries[j])
    ensures Within(entries, left) && Within(entries, right)
    ensures ldatum == SideKey(At(entries, left), At(entries, right))
    ensures rdatum == SideKey(At(entries, right), At(entries, left))
    ensures SidesOfBounds(At(entries, left), At(entries, right), ldatum, rdatum)
  {
    left, right, ldatum, rdatum := Distribute(entries, order);
    var ll := VarNodeCpLen(ldatum);
    var lr := VarNodeCpLen(rdatum);
    ll := Max(ll, lr);
    ll := ll + 1;
    ldatum, rdatum := NodeTruncate(ldatum, ll), NodeTruncate(rdatum, ll);
    SplitArranged(entries, order, left, right);
    SidesExactly(At(entries, left), At(entries, right), ldatum, rdatum);
  }

  /** The bounds of both sides, cut two bytes beyond the longer of what they have in common. */
  ghost predicate SidesOfBounds(left: seq<Key>, right: seq<Key>, l: Key, r: Key) {
    exists b, c :: Bounds(left, b) && Bounds(right, c) &&
      l == CutAt(b, Max(NodeCp(b), NodeCp(c)) + 2) && r == CutAt(c, Max(NodeCp(b), NodeCp(c)) + 2)
  }

  lemma SidesExactly(left: seq<Key>, right: seq<Key>, l: Key, r: Key)
    requires |left| > 0 && |right| > 0 && l == SideKey(left, right) && r == SideKey(right, left)
    ensures SidesOfBounds(left, right, l, r)
  {
    SpreadExactly(left, Spread(left));
    SpreadExactly(right, Spread(right));
  }

  /** Over data, each side of a split is a possible history, so searching through it loses nothing. */
  lemma SplitOfDataIsHistory(side: seq<Bytes>, other: seq<Bytes>)
    requires |side| > 0 && |other| > 0
    ensures exists extra: nat :: SideKey(DatumKeys(side), DatumKeys(other)) == KeyOf(SplitOf(side, extra))
  {
    var s, o := Spread(DatumKeys(side)), Spread(DatumKeys(other));
    var extra := Max(NodeCp(s), NodeCp(o)) - NodeCp(s);
    assert SideKey(DatumKeys(side), DatumKeys(other)) == KeyOf(SplitOf(side, extra));
  }

  /** How long the bounds of both sides may stay. */
  function CutLength(side: seq<Key>, other: seq<Key>): nat
    requires |side| > 0 && |other| > 0
  {
    Max(NodeCp(Spread(side)), NodeCp(Spread(other))) + 2
  }

  /** A key that was cut, and whose upper bound begins the largest one of the side but ends before the cut. */
  ghost predicate ExposedByCut(k: Key, upper: Bytes, len: nat) {
    Cut(k) && k.upper < upper && exists j :: |k.upper| <= j < |upper| && j < len && upper[j] < 255
  }

  /** Over node keys, a side keeps every string exactly when the cut exposes none of its keys. */
  lemma SideHoldsExactly(side: seq<Key>, other: seq<Key>)
    requires |side| > 0 && |other| > 0 && AllProper(side)
    ensures (forall i, x :: 0 <= i < |side| && Holds(side[i], x) ==> Holds(SideKey(side, other), x)) <==>
            !exists i :: 0 <= i < |side| && ExposedByCut(side[i], Spread(side).upper, CutLength(side, other))
  {
    var upper, len := Spread(side).upper, CutLength(side, other);
    CutKeyExactly(side, len, SideKey(side, other));
    forall i | 0 <= i < |side|
      ensures ExposedByCut(side[i], upper, len) <==> Exposed(side[i], SideKey(side, other).upper)
    {
      var cut := SideKey(side, other).upper;
      assert cut == Take(upper, len);
      if j :| |side[i].upper| <= j < |upper| && j < len && upper[j] < 255 { assert j < |cut| && cut[j] == upper[j]; }
      if j :| |side[i].upper| <= j < |cut| && cut[j] < 255 { assert upper[j] == cut[j]; }
    }
  }

  /** The side with the longer common prefix is never exposed. */
  lemma LongerSideHolds(side: seq<Key>, other: seq<Key>, i: nat, x: Bytes)
    requires i < |side| && |other| > 0 && AllProper(side)
    requires NodeCp(Spread(side)) >= NodeCp(Spread(other)) && Holds(side[i], x)
    ensures Holds(SideKey(side, other), x)
  {
    UnionHolds(side, i, x);
  }

  // A page of four keys in their order: the first two go left, the others agree longer.
  const SHORT := Union([Key([97], [97]), Key([98, 98, 120], [98, 98, 120])])
  const LONG := Key([98, 98, 97, 98], [98, 98, 97, 98])
  const OTHER := Key([99, 99, 99, 99, 99], [99, 99, 99, 99, 100])
  const LOST: Bytes := [98, 98, 120]
  const PAGE := [SHORT, LONG, OTHER, OTHER]
  const ORDER: seq<nat> := [0, 1, 2, 3]

  lemma PageIsArranged()
    ensures Arranged(PAGE, ORDER)
  {
    ShortIs();
    assert ORDER == Offsets(4);
    assert Cmp([97], LONG.lower) < 0 && Cmp([97], OTHER.lower) < 0 && Cmp(LONG.lower, OTHER.lower) < 0;
    CmpFlip(OTHER.lower, OTHER.lower);
    CmpFlip(OTHER.upper, OTHER.upper);
  }

  lemma LeftIs()
    ensures SideKey([SHORT, LONG], [OTHER, OTHER]) == Key([97], LONG.upper)
    ensures ExposedByCut(SHORT, Spread([SHORT, LONG]).upper, CutLength([SHORT, LONG], [OTHER, OTHER]))
  {
    ShortIs();
    var side := [SHORT, LONG];
    assert side[..1] == [SHORT];
    assert Spread(side[..1]) == SHORT;
    assert Cmp([97], LONG.lower) < 0;
    assert Cmp([98, 98], LONG.upper) < 0 by { assert [98, 98][1..][1..] == [] && LONG.upper[1..][1..] == [97, 98]; }
    assert Spread(side) == Key([97], LONG.upper);
    OtherIs();
    assert SHORT.upper < LONG.upper && LONG.upper[2] < 255;
  }

  /** A stored string that a split of node keys loses: it went into SHORT, and the left side does not find it. */
  lemma SplitOfNodesLosesAString()
    ensures Contains(UnionOf([Datum([97]), Datum(LOST)]), LOST) && KeyOf(UnionOf([Datum([97]), Datum(LOST)])) == SHORT
    ensures Holds(SHORT, LOST)
    ensures !Consistent(SideKey([SHORT, LONG], [OTHER, OTHER]), LOST, Equal, false)
  {
    var h := UnionOf([Datum([97]), Datum(LOST)]);
    assert Contains(h.parts[1], LOST);
    var ks := [Key([97], [97]), Key(LOST, LOST)];
    assert KeysOf(h.parts) == ks by { assert KeysOf(h.parts[1..][1..]) == []; }
    HistoryHolds(h, LOST);
    LeftIs();
    assert Cmp(LOST, LONG.upper) > 0 by { assert LOST[1..][1..] == [120] && LONG.upper[1..][1..] == [97, 98]; }
  }

  /** The split itself: the page of SHORT goes left, and an equality search for LOST does not enter the left side. */
  method SplitLosesAString() returns (left: seq<nat>, right: seq<nat>, ldatum: Key, rdatum: Key)
    ensures 0 in left && PAGE[0] == SHORT && Holds(SHORT, LOST)
    ensures !Consistent(ldatum, LOST, Equal, false)
  {
    PageIsArranged();
    left, right, ldatum, rdatum := VarPickSplit(PAGE, ORDER);
    PageHalves(left, right);
    SplitOfNodesLosesAString();
  }

  lemma PageHalves(left: seq<nat>, right: seq<nat>)
    requires left == ORDER[..2] && right == ORDER[2..]
    ensures Within(PAGE, left) && Within(PAGE, right)
    ensures At(PAGE, left) == [SHORT, LONG] && At(PAGE, right) == [OTHER, OTHER] && left[0] == 0
  {
    assert left == [0, 1] && right == [2, 3];
  }

  lemma ShortIs()
    ensures SHORT == Key([97], [98, 98])
  {
    var ks := [Key([97], [97]), Key(LOST, LOST)];
    assert ks[..1] == [ks[0]];
    assert Spread(ks) == Key([97], LOST);
  }

  lemma OtherIs()
    ensures NodeCp(Spread([OTHER, OTHER])) == 4
  {
    var side := [OTHER, OTHER];
    assert side[..1] == [OTHER];
    assert Spread(side[..1]) == OTHER;
    CmpFlip(OTHER.lower, OTHER.lower);
    CmpFlip(OTHER.upper, OTHER.upper);
    assert Spread(side) == OTHER;
    CpLenLeast(OTHER.lower, OTHER.upper, 4);
    CpLenMeans(OTHER.lower, OTHER.upper);
  }
}
