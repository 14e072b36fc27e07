/** Splitting a page of gist__intbig_ops in two, and the signatures of pages of any history. */
module IntSignPick {
  import opened IntSign
  import opened IntSignTree
  import opened IntSignSplit

  /** Entry 0 is not used; there are at least two others. */
  predicate Page(entries: seq<SignKey>) {
    |entries| >= 3 && forall i :: 0 <= i < |entries| ==> Valid(entries[i])
  }

  lemma DistIsNat(a: SignKey, b: SignKey)
    requires Valid(a) && Valid(b)
    ensures Dist(a, b) >= 0
  {
    DistIsDiffering(a, b);
  }

  /** Distances between entries, by offset. */
  ghost function Between(entries: seq<SignKey>): (int, int) -> int
    requires Page(entries)
  {
    (p, q) => if 0 <= p < |entries| && 0 <= q < |entries| then Dist(entries[p], entries[q]) else 0
  }

  /**
   Either no pair has been looked at, or the seeds are a pair at distance waste, no pair before (k, j) is
   farther apart, and all pairs before the seeds are closer.
   */
  ghost predicate Farthest(d: (int, int) -> int, maxoff: nat, k: nat, j: nat, waste: int, seed1: nat, seed2: nat) {
    && (if waste == -1 then seed1 == 0 && k == 1 && j == 2
      else 1 <= seed1 < seed2 <= maxoff && waste == d(seed1, seed2) >= 0)
    && (forall p, q :: 1 <= p < q <= maxoff && (p < k || (p == k && q < j)) ==> d(p, q) <= waste)
    && (waste != -1 ==> (seed1 < k || (seed1 == k && seed2 < j)) && forall p, q ::
      1 <= p < q <= maxoff && (p < seed1 || (p == seed1 && q < seed2)) ==> d(p, q) < waste)
  }

  lemma FarthestMore(d: (int, int) -> int, maxoff: nat, k: nat, j: nat, waste: int, seed1: nat, seed2: nat)
    requires Farthest(d, maxoff, k, j, waste, seed1, seed2) && 1 <= k < j <= maxoff && d(k, j) >= 0
    ensures if d(k, j) > waste then Farthest(d, maxoff, k, j + 1, d(k, j), k, j)
      else Farthest(d, maxoff, k, j + 1, waste, seed1, seed2)
  {
  }

  /** The first pair that is farthest apart, the last entry left aside. */
  method PickSeeds(entries: seq<SignKey>) returns (seed1: nat, seed2: nat)
    requires Page(entries)
    ensures |entries| == 3 ==> seed1 == 1 && seed2 == 2
    ensures |entries| > 3 ==> 1 <= seed1 < seed2 <= |entries| - 2
    ensures forall k, j ::
      1 <= k < j <= |entries| - 2 ==> Dist(entries[k], entries[j]) <= Dist(entries[seed1], entries[seed2])
    ensures forall k, j :: 1 <= k < j <= |entries| - 2 && (k < seed1 || (k == seed1 && j < seed2)) ==>
      Dist(entries[k], entries[j]) < Dist(entries[seed1], entries[seed2])
  {
    var maxoff := |entries| - 2;
    ghost var d := Between(entries);
    var waste := -1;
    seed1, seed2 := 0, 0;
    var k := 1;
    while k < maxoff
      invariant 1 <= k <= maxoff
      invariant Farthest(d, maxoff, k, k + 1, waste, seed1, seed2)
    {
      waste, seed1, seed2 := FarthestFrom(entries, k, waste, seed1, seed2);
      k := k + 1;
    }
    forall p, q | 1 <= p < q <= maxoff
      ensures Dist(entries[p], entries[q]) <= waste
      ensures p < seed1 || (p == seed1 && q < seed2) ==> Dist(entries[p], entries[q]) < waste
    {
      assert d(p, q) <= waste && d(p, q) == Dist(entries[p], entries[q]);
    }
    if seed1 == 0 || seed2 == 0 { seed1, seed2 := 1, 2; }
  }

  /** The pairs of k with later entries. */
  method FarthestFrom(entries: seq<SignKey>, k: nat, waste: int, seed1: nat, seed2: nat)
    returns (waste': int, seed1': nat, seed2': nat)
    requires Page(entries) && 1 <= k < |entries| - 2
    requires Farthest(Between(entries), |entries| - 2, k, k + 1, waste, seed1, seed2)
    ensures Farthest(Between(entries), |entries| - 2, k + 1, k + 2, waste', seed1', seed2')
  {
    ghost var d := Between(entries);
    waste', seed1', seed2' := waste, seed1, seed2;
    var j: nat := k + 1;
    while j <= |entries| - 2
      invariant k + 1 <= j <= |entries| - 1
      invariant Farthest(d, |entries| - 2, k, j, waste', seed1', seed2')
    {
      var sizeWaste := HemDist(entries[k], entries[j]);
      DistIsNat(entries[k], entries[j]);
      FarthestMore(d, |entries| - 2, k, j, waste', seed1', seed2');
      if sizeWaste > waste' { waste', seed1', seed2' := sizeWaste, k, j; }
      j := j + 1;
    }
  }

  // ----- placing the entries -----

  datatype Sides = Sides(left: seq<nat>, right: seq<nat>, l: SignKey, r: SignKey)

  /** Favours the side with fewer entries. */
  function Wish(a: int, b: int): real {
    -(((a - b) * (a - b) * (a - b)) as real) * 0.00001
  }

  function Merge(l: SignKey, e: SignKey): (m: SignKey)
    requires Valid(l) && Valid(e)
    ensures Valid(m)
  {
    if l.AllTrue? then l
    else if e.AllTrue? then Signed(seq(SIGLEN, i => 0xff))
    else Signed(Or(l.sign, e.sign))
  }

  lemma MergeBit(l: SignKey, e: SignKey, h: nat)
    requires Valid(l) && Valid(e) && h < SIGLENBIT
    ensures KeyBit(Merge(l, e), h) <==> KeyBit(l, h) || KeyBit(e, h)
  {
    if l.AllTrue? {
    } else if e.AllTrue? {
      NoBits(h % 8);
    } else {
      OrBits(l.sign, e.sign, h);
    }
  }

  predicate GoesLeft(v: Sides, e: SignKey)
    requires Valid(v.l) && Valid(v.r) && Valid(e)
  {
    Dist(v.l, e) as real < Dist(v.r, e) as real + Wish(|v.left|, |v.right|)
  }

  function Place(entries: seq<SignKey>, seed1: nat, seed2: nat, v: Sides, j: nat): (w: Sides)
    requires Page(entries) && j < |entries| && Valid(v.l) && Valid(v.r)
    ensures Valid(w.l) && Valid(w.r)
  {
    if j == seed1 then v.(left := v.left + [j])
    else if j == seed2 then v.(right := v.right + [j])
    else if GoesLeft(v, entries[j]) then v.(left := v.left + [j], l := Merge(v.l, entries[j]))
    else v.(right := v.right + [j], r := Merge(v.r, entries[j]))
  }

  function PlaceAll(entries: seq<SignKey>, seed1: nat, seed2: nat, order: seq<nat>): (w: Sides)
    requires Page(entries) && seed1 < |entries| && seed2 < |entries|
    requires forall i :: 0 <= i < |order| ==> order[i] < |entries|
    ensures Valid(w.l) && Valid(w.r)
  {
    if order == [] then Sides([], [], entries[seed1], entries[seed2])
    else Place(entries, seed1, seed2, PlaceAll(entries, seed1, seed2, order[..|order| - 1]), order[|order| - 1])
  }

  /** The key of a side while it grows: a flag and, without the flag, a signature. */
  function KeyOf(all: bool, sign: seq<bv8>): SignKey {
    if all then AllTrue else Signed(sign)
  }

  method Absorb(all: bool, union: array<bv8>, e: SignKey)
    requires union.Length == SIGLEN && Valid(e)
    modifies union
    ensures KeyOf(all, union[..]) == Merge(KeyOf(all, old(union[..])), e)
  {
    if all || e.AllTrue? {
      if !all {
        forall i | 0 <= i < SIGLEN { union[i] := 0xff; }
        assert union[..] == seq(SIGLEN, i => 0xff as bv8);
      }
    } else {
      OrInto(union, e.sign);
    }
  }

  method StartSide(e: SignKey) returns (all: bool, union: array<bv8>)
    requires Valid(e)
    ensures fresh(union) && union.Length == SIGLEN && KeyOf(all, union[..]) == e
  {
    all := e.AllTrue?;
    union := new bv8[SIGLEN](i requires 0 <= i < SIGLEN => if e.AllTrue? then 0 else e.sign[i]);
    if !all { assert union[..] == e.sign; }
  }

  // ----- which side an entry goes to -----

  /** The members of order that are on a side. */
  function Among(order: seq<nat>, side: seq<nat>): seq<nat> {
    if order == [] then []
    else
      var j := order[|order| - 1];
      Among(order[..|order| - 1], side) + (if j in side then [j] else [])
  }

  /** Entry j differs at h from what a side has: the bits of its seed and of the entries placed there. */
  ghost predicate Parts(entries: seq<SignKey>, seed: nat, placed: seq<nat>, j: nat, h: nat)
    requires Page(entries) && seed < |entries| && j < |entries|
  {
    h < SIGLENBIT && ((KeyBit(entries[seed], h) || SideBit(entries, placed, h)) != KeyBit(entries[j], h))
  }

  /** In how many bits. */
  ghost function Away(entries: seq<SignKey>, seed: nat, placed: seq<nat>, j: nat): nat
    requires Page(entries) && seed < |entries| && j < |entries|
  {
    Count((h: nat) => Parts(entries, seed, placed, j, h), SIGLENBIT)
  }

  /**
   The entry at position k goes to the side it is nearer to, measured against the entries placed before
   it, the side with fewer entries being favoured.
   */
  ghost predicate NearerSide(entries: seq<SignKey>, seed1: nat, seed2: nat, order: seq<nat>, left: seq<nat>,
                             right: seq<nat>, k: nat)
    requires Page(entries) && seed1 < |entries| && seed2 < |entries| && k < |order| && order[k] < |entries|
  {
    var j, l, r := order[k], Among(order[..k], left), Among(order[..k], right);
    (j in left <==> j !in right) &&
    if j == seed1 then j in left
    else if j == seed2 then j in right
    else j in left <==> Away(entries, seed1, l, j) as real < Away(entries, seed2, r, j) as real + Wish(|l|, |r|)
  }

  lemma {:induction false} CountSame(f: nat -> bool, g: nat -> bool, n: nat)
    requires forall h: nat :: h < n ==> f(h) == g(h)
    ensures Count(f, n) == Count(g, n)
  {
    if n > 0 { CountSame(f, g, n - 1); }
  }

  /** The distance to a key that has the bits of a side. */
  lemma DistIsAway(entries: seq<SignKey>, seed: nat, placed: seq<nat>, key: SignKey, j: nat)
    requires Page(entries) && seed < |entries| && j < |entries| && Valid(key)
    requires forall h: nat :: h < SIGLENBIT ==> SideSigned(entries, placed, seed, key, h)
    ensures Dist(key, entries[j]) == Away(entries, seed, placed, j)
  {
    DistIsDiffering(key, entries[j]);
    var f, g := (h: nat) => Differ(key, entries[j], h), (h: nat) => Parts(entries, seed, placed, j, h);
    forall h: nat | h < SIGLENBIT ensures f(h) == g(h) {
      assert SideSigned(entries, placed, seed, key, h);
    }
    CountSame(f, g, SIGLENBIT);
  }

  lemma {:induction false} AmongSame(order: seq<nat>, s: seq<nat>, t: seq<nat>)
    requires forall j :: j in order ==> (j in s <==> j in t)
    ensures Among(order, s) == Among(order, t)
  {
    if order != [] {
      assert forall j :: j in order[..|order| - 1] ==> j in order;
      assert order[|order| - 1] in order;
      AmongSame(order[..|order| - 1], s, t);
    }
  }

  /** No offset twice. */
  ghost predicate Once(order: seq<nat>) {
    forall i, j :: 0 <= i < j < |order| ==> order[i] != order[j]
  }

  lemma OnceCount(order: seq<nat>, j: nat)
    requires Once(order)
    ensures multiset(order)[j] <= 1
  {
    if order != [] {
      var n := |order| - 1;
      assert order == order[..n] + [order[n]];
      OnceCount(order[..n], j);
      if j == order[n] { assert j !in order[..n]; assert j !in multiset(order[..n]); }
    }
  }

  lemma PlaceGrows(entries: seq<SignKey>, seed1: nat, seed2: nat, v: Sides, j: nat)
    requires Page(entries) && j < |entries| && Valid(v.l) && Valid(v.r)
    ensures var w := Place(entries, seed1, seed2, v, j); v.left <= w.left && v.right <= w.right
  {
  }

  /** What has been placed stays, and nothing is on both sides. */
  lemma {:induction false} PlacedStays(entries: seq<SignKey>, seed1: nat, seed2: nat, order: seq<nat>, m: nat)
    requires Page(entries) && 1 <= seed1 < seed2 < |entries| && m <= |order|
    requires forall i :: 0 <= i < |order| ==> order[i] < |entries|
    ensures var v, w := PlaceAll(entries, seed1, seed2, order[..m]), PlaceAll(entries, seed1, seed2, order);
      v.left <= w.left && v.right <= w.right
    decreases |order|
  {
    if m < |order| {
      var n := |order| - 1;
      PlacedStays(entries, seed1, seed2, order[..n], m);
      assert order[..n][..m] == order[..m];
      PlaceGrows(entries, seed1, seed2, PlaceAll(entries, seed1, seed2, order[..n]), order[n]);
    } else {
      assert order[..m] == order;
    }
  }

  lemma OneSideOnly(entries: seq<SignKey>, seed1: nat, seed2: nat, order: seq<nat>, j: nat)
    requires Page(entries) && 1 <= seed1 < seed2 < |entries| && Once(order)
    requires (forall i :: 0 <= i < |order| ==> order[i] < |entries|) && j in order
    ensures var v := PlaceAll(entries, seed1, seed2, order); j in v.left <==> j !in v.right
  {
    var v := PlaceAll(entries, seed1, seed2, order);
    PlacedOnce(entries, seed1, seed2, order);
    OnceCount(order, j);
    assert j in multiset(order);
    assert multiset(v.left)[j] + multiset(v.right)[j] == multiset(order)[j];
    assert j in multiset(v.left) <==> j in v.left;
    assert j in multiset(v.right) <==> j in v.right;
  }

  lemma SameSide(entries: seq<SignKey>, seed1: nat, seed2: nat, order: seq<nat>, m: nat, j: nat)
    requires Page(entries) && 1 <= seed1 < seed2 < |entries| && Once(order) && m <= |order|
    requires (forall i :: 0 <= i < |order| ==> order[i] < |entries|) && j in order[..m]
    ensures var v, w := PlaceAll(entries, seed1, seed2, order[..m]), PlaceAll(entries, seed1, seed2, order);
      && (j in v.left <==> j in w.left) && (j in v.right <==> j in w.right)
      && (j in w.left <==> j !in w.right)
  {
    PlacedStays(entries, seed1, seed2, order, m);
    OneSideOnly(entries, seed1, seed2, order[..m], j);
    OneSideOnly(entries, seed1, seed2, order, j);
  }

  /** The entries placed so far, in order. */
  lemma {:induction false} PlacedAmong(entries: seq<SignKey>, seed1: nat, seed2: nat, order: seq<nat>)
    requires Page(entries) && 1 <= seed1 < seed2 < |entries| && Once(order)
    requires forall i :: 0 <= i < |order| ==> order[i] < |entries|
    ensures var v := PlaceAll(entries, seed1, seed2, order);
      v.left == Among(order, v.left) && v.right == Among(order, v.right)
  {
    if order != [] {
      var n := |order| - 1;
      var v, w := PlaceAll(entries, seed1, seed2, order[..n]), PlaceAll(entries, seed1, seed2, order);
      PlacedAmong(entries, seed1, seed2, order[..n]);
      forall j | j in order[..n] ensures (j in v.left <==> j in w.left) && (j in v.right <==> j in w.right) {
        SameSide(entries, seed1, seed2, order, n, j);
      }
      AmongSame(order[..n], v.left, w.left);
      AmongSame(order[..n], v.right, w.right);
      OneSideOnly(entries, seed1, seed2, order, order[n]);
    }
  }

  lemma PlacedBefore(entries: seq<SignKey>, seed1: nat, seed2: nat, order: seq<nat>, k: nat)
    requires Page(entries) && 1 <= seed1 < seed2 < |entries| && Once(order) && k <= |order|
    requires forall i :: 0 <= i < |order| ==> order[i] < |entries|
    ensures var v, w := PlaceAll(entries, seed1, seed2, order[..k]), PlaceAll(entries, seed1, seed2, order);
      v.left == Among(order[..k], w.left) && v.right == Among(order[..k], w.right)
  {
    var v, w := PlaceAll(entries, seed1, seed2, order[..k]), PlaceAll(entries, seed1, seed2, order);
    PlacedAmong(entries, seed1, seed2, order[..k]);
    forall j | j in order[..k] ensures (j in v.left <==> j in w.left) && (j in v.right <==> j in w.right) {
      SameSide(entries, seed1, seed2, order, k, j);
    }
    AmongSame(order[..k], v.left, w.left);
    AmongSame(order[..k], v.right, w.right);
  }

  /** The sides as they are when position k is reached. */
  lemma SidesAway(entries: seq<SignKey>, seed1: nat, seed2: nat, order: seq<nat>, k: nat)
    requires Page(entries) && 1 <= seed1 < seed2 < |entries| && Once(order) && k < |order|
    requires forall i :: 0 <= i < |order| ==> order[i] < |entries|
    ensures var v, w := PlaceAll(entries, seed1, seed2, order[..k]), PlaceAll(entries, seed1, seed2, order);
      var j := order[k];
      && Dist(v.l, entries[j]) == Away(entries, seed1, Among(order[..k], w.left), j)
      && Dist(v.r, entries[j]) == Away(entries, seed2, Among(order[..k], w.right), j)
  {
    var v := PlaceAll(entries, seed1, seed2, order[..k]);
    PlacedBefore(entries, seed1, seed2, order, k);
    forall h: nat | h < SIGLENBIT
      ensures SideSigned(entries, v.left, seed1, v.l, h) && SideSigned(entries, v.right, seed2, v.r, h)
    {
      PlacedBits(entries, seed1, seed2, order[..k], h);
    }
    DistIsAway(entries, seed1, v.left, v.l, order[k]);
    DistIsAway(entries, seed2, v.right, v.r, order[k]);
  }

  lemma LeftIsNearer(v: Sides, e: SignKey, l: nat, r: nat)
    requires Valid(v.l) && Valid(v.r) && Valid(e) && Dist(v.l, e) == l && Dist(v.r, e) == r
    ensures GoesLeft(v, e) <==> l as real < r as real + Wish(|v.left|, |v.right|)
  {
  }

  lemma NearerSideTaken(entries: seq<SignKey>, seed1: nat, seed2: nat, order: seq<nat>, k: nat)
    requires Page(entries) && 1 <= seed1 < seed2 < |entries| && Once(order) && k < |order|
    requires forall i :: 0 <= i < |order| ==> order[i] < |entries|
    ensures var v := PlaceAll(entries, seed1, seed2, order);
      NearerSide(entries, seed1, seed2, order, v.left, v.right, k)
  {
    PlacedBefore(entries, seed1, seed2, order, k);
    SidesAway(entries, seed1, seed2, order, k);
    SideAtStep(entries, seed1, seed2, order, k);
    var v, w := PlaceAll(entries, seed1, seed2, order[..k]), PlaceAll(entries, seed1, seed2, order);
    var l, r := Among(order[..k], w.left), Among(order[..k], w.right);
    LeftIsNearer(v, entries[order[k]], Away(entries, seed1, l, order[k]), Away(entries, seed2, r, order[k]));
  }

  lemma SideAtStep(entries: seq<SignKey>, seed1: nat, seed2: nat, order: seq<nat>, k: nat)
    requires Page(entries) && 1 <= seed1 < seed2 < |entries| && Once(order) && k < |order|
    requires forall i :: 0 <= i < |order| ==> order[i] < |entries|
    ensures var v, w := PlaceAll(entries, seed1, seed2, order[..k]), PlaceAll(entries, seed1, seed2, order);
      var j := order[k];
      && (j in w.left <==> j !in w.right)
      && (j in w.left <==> j == seed1 || (j != seed2 && GoesLeft(v, entries[j])))
  {
    var j, v := order[k], PlaceAll(entries, seed1, seed2, order[..k]);
    var next := order[..k + 1];
    assert next[..k] == order[..k] && j == next[k];
    SameSide(entries, seed1, seed2, order, k + 1, j);
    assert PlaceAll(entries, seed1, seed2, next) == Place(entries, seed1, seed2, v, j);
    OneSideOnly(entries, seed1, seed2, next, j);
  }

  /** The balance term favours the smaller side, and up to 46 entries of difference it is less than one bit. */
  lemma WishFavours(a: int, b: int)
    ensures Wish(a, b) > 0.0 <==> a < b
    ensures Wish(a, b) < 0.0 <==> a > b
    ensures -1.0 < Wish(a, b) < 1.0 <==> -46 <= a - b <= 46
  {
    Cube(a - b);
  }

  lemma Cube(d: int)
    ensures d * d * d > 0 <==> d > 0
    ensures d * d * d < 0 <==> d < 0
    ensures -100_000 < d * d * d < 100_000 <==> -46 <= d <= 46
  {
    CubeGrows(d);
    CubeGrows(-d);
    assert (-d) * (-d) * (-d) == -(d * d * d);
  }

  lemma CubeGrows(d: int)
    ensures d > 0 ==> d * d * d > 0
    ensures 0 <= d <= 46 ==> d * d * d < 100_000
    ensures d >= 47 ==> d * d * d >= 100_000
  {
    if d > 0 { assert d * d >= d; assert d * d * d >= d * d; }
    if 0 <= d <= 46 { assert d * d <= 46 * 46; assert d * d * d <= 46 * 46 * 46; }
    if d >= 47 { assert d * d >= 47 * 47; assert d * d * d >= 47 * 47 * 47; }
  }

  /** While the sides differ by at most 46 entries, an entry strictly nearer to one side goes there. */
  lemma NearerGoesThere(entries: seq<SignKey>, seed1: nat, seed2: nat, order: seq<nat>, left: seq<nat>,
                        right: seq<nat>, k: nat)
    requires Page(entries) && seed1 < |entries| && seed2 < |entries| && k < |order| && order[k] < |entries|
    requires NearerSide(entries, seed1, seed2, order, left, right, k) && order[k] != seed1 && order[k] != seed2
    requires -46 <= |Among(order[..k], left)| - |Among(order[..k], right)| <= 46
    ensures var j := order[k];
      var l, r := Away(entries, seed1, Among(order[..k], left), j), Away(entries, seed2, Among(order[..k], right), j);
      && (l < r ==> j in left && j !in right)
      && (l > r ==> j in right && j !in left)
      && (l == r ==> (j in left <==> |Among(order[..k], left)| < |Among(order[..k], right)|))
  {
    WishFavours(|Among(order[..k], left)|, |Among(order[..k], right)|);
  }

  /** order lists the offsets as qsort leaves them. */
  method GIntBigPickSplit(entries: seq<SignKey>, order: seq<nat>) returns (v: Sides, seed1: nat, seed2: nat)
    requires Page(entries) && forall i :: 0 <= i < |order| ==> 1 <= order[i] < |entries|
    ensures 1 <= seed1 < seed2 < |entries| && v == PlaceAll(entries, seed1, seed2, order)
    ensures forall k, j ::
      1 <= k < j <= |entries| - 2 ==> Dist(entries[k], entries[j]) <= Dist(entries[seed1], entries[seed2])
    ensures Once(order) ==> forall k ::
      0 <= k < |order| ==> NearerSide(entries, seed1, seed2, order, v.left, v.right, k)
  {
    seed1, seed2 := PickSeeds(entries);
    var allL, unionL := StartSide(entries[seed1]);
    var allR, unionR := StartSide(entries[seed2]);
    var left, right := [], [];
    for k := 0 to |order|
      invariant Sides(left, right, KeyOf(allL, unionL[..]), KeyOf(allR, unionR[..])) ==
        PlaceAll(entries, seed1, seed2, order[..k])
    {
      assert order[..k + 1][..k] == order[..k];
      var j := order[k];
      if j == seed1 {
        left := left + [j];
      } else if j == seed2 {
        right := right + [j];
      } else {
        var alpha := HemDist(KeyOf(allL, unionL[..]), entries[j]);
        var beta := HemDist(KeyOf(allR, unionR[..]), entries[j]);
        if alpha as real < beta as real + Wish(|left|, |right|) {
          Absorb(allL, unionL, entries[j]);
          left := left + [j];
        } else {
          Absorb(allR, unionR, entries[j]);
          right := right + [j];
        }
      }
    }
    assert order[..|order|] == order;
    v := Sides(left, right, KeyOf(allL, unionL[..]), KeyOf(allR, unionR[..]));
    if Once(order) {
      forall k | 0 <= k < |order| ensures NearerSide(entries, seed1, seed2, order, v.left, v.right, k) {
        NearerSideTaken(entries, seed1, seed2, order, k);
      }
    }
  }

  // ----- what a split keeps -----

  ghost predicate SideBit(entries: seq<SignKey>, side: seq<nat>, h: nat)
    requires Page(entries) && h < SIGLENBIT
  {
    exists i :: 0 <= i < |side| && side[i] < |entries| && KeyBit(entries[side[i]], h)
  }

  lemma SideBitMore(entries: seq<SignKey>, side: seq<nat>, j: nat, h: nat)
    requires Page(entries) && h < SIGLENBIT && j < |entries|
    ensures SideBit(entries, side + [j], h) <==> SideBit(entries, side, h) || KeyBit(entries[j], h)
  {
    var more := side + [j];
    if KeyBit(entries[j], h) { assert more[|side|] == j; }
    if SideBit(entries, side, h) {
      var i :| 0 <= i < |side| && side[i] < |entries| && KeyBit(entries[side[i]], h);
      assert more[i] == side[i];
    }
    if SideBit(entries, more, h) {
      var i :| 0 <= i < |more| && more[i] < |entries| && KeyBit(entries[more[i]], h);
      assert i < |side| ==> side[i] == more[i];
    }
  }

  /** Offsets seen so far are on one side each, the seeds on their own. */
  lemma {:induction false} PlacedOnce(entries: seq<SignKey>, seed1: nat, seed2: nat, order: seq<nat>)
    requires Page(entries) && 1 <= seed1 < seed2 < |entries|
    requires forall i :: 0 <= i < |order| ==> order[i] < |entries|
    ensures var v := PlaceAll(entries, seed1, seed2, order);
      && multiset(v.left) + multiset(v.right) == multiset(order)
      && (seed1 in order ==> seed1 in v.left)
      && (seed2 in order ==> seed2 in v.right)
  {
    if order != [] {
      var n := |order| - 1;
      PlacedOnce(entries, seed1, seed2, order[..n]);
      OneSide(PlaceAll(entries, seed1, seed2, order[..n]), PlaceAll(entries, seed1, seed2, order), seed1, seed2, order);
    }
  }

  lemma OneSide(v: Sides, w: Sides, seed1: nat, seed2: nat, order: seq<nat>)
    requires order != [] && seed1 != seed2
    requires var j := order[|order| - 1];
      || (w.left == v.left + [j] && w.right == v.right && j != seed2)
      || (w.right == v.right + [j] && w.left == v.left && j != seed1)
    requires var less := order[..|order| - 1];
      multiset(v.left) + multiset(v.right) == multiset(less) && (seed1 in less ==> seed1 in v.left) &&
        (seed2 in less ==> seed2 in v.right)
    ensures multiset(w.left) + multiset(w.right) == multiset(order)
    ensures (seed1 in order ==> seed1 in w.left) && (seed2 in order ==> seed2 in w.right)
  {
    assert order == order[..|order| - 1] + [order[|order| - 1]];
  }

  /** A side's key has the bits of its seed and of its entries. */
  ghost predicate SideSigned(entries: seq<SignKey>, side: seq<nat>, seed: nat, key: SignKey, h: nat)
    requires Page(entries) && seed < |entries| && Valid(key) && h < SIGLENBIT
  {
    KeyBit(key, h) <==> KeyBit(entries[seed], h) || SideBit(entries, side, h)
  }

  lemma SignMore(entries: seq<SignKey>, side: seq<nat>, seed: nat, key: SignKey, j: nat, h: nat)
    requires Page(entries) && seed < |entries| && Valid(key) && h < SIGLENBIT && j < |entries|
    requires SideSigned(entries, side, seed, key, h)
    ensures SideSigned(entries, side + [j], seed, Merge(key, entries[j]), h)
    ensures j == seed ==> SideSigned(entries, side + [j], seed, key, h)
  {
    SideBitMore(entries, side, j, h);
    MergeBit(key, entries[j], h);
  }

  lemma {:induction false} PlacedBits(entries: seq<SignKey>, seed1: nat, seed2: nat, order: seq<nat>, h: nat)
    requires Page(entries) && 1 <= seed1 < seed2 < |entries| && h < SIGLENBIT
    requires forall i :: 0 <= i < |order| ==> order[i] < |entries|
    ensures var v := PlaceAll(entries, seed1, seed2, order);
      SideSigned(entries, v.left, seed1, v.l, h) && SideSigned(entries, v.right, seed2, v.r, h)
  {
    if order != [] {
      var n := |order| - 1;
      var j, v := order[n], PlaceAll(entries, seed1, seed2, order[..n]);
      PlacedBits(entries, seed1, seed2, order[..n], h);
      SignMore(entries, v.left, seed1, v.l, j, h);
      SignMore(entries, v.right, seed2, v.r, j, h);
    }
  }

  /** A permutation of the offsets. */
  ghost predicate Offsets(order: seq<nat>, n: nat) {
    forall j: nat :: multiset(order)[j] == if 1 <= j < n then 1 else 0
  }

  lemma OffsetsRange(order: seq<nat>, n: nat)
    requires Offsets(order, n)
    ensures forall i :: 0 <= i < |order| ==> 1 <= order[i] < n
    ensures forall j: nat :: 1 <= j < n ==> j in order
  {
    forall i | 0 <= i < |order| ensures 1 <= order[i] < n { assert order[i] in multiset(order); }
    forall j: nat | 1 <= j < n ensures j in order { assert j in multiset(order); }
  }

  /** Every offset on exactly one side, no side empty, and each side's key has exactly its entries' bits. */
  lemma SplitKeeps(entries: seq<SignKey>, seed1: nat, seed2: nat, order: seq<nat>)
    requires Page(entries) && 1 <= seed1 < seed2 < |entries| && Offsets(order, |entries|)
    ensures forall i :: 0 <= i < |order| ==> 1 <= order[i] < |entries|
    ensures var v := PlaceAll(entries, seed1, seed2, order);
      && (forall j: nat :: 1 <= j < |entries| ==> multiset(v.left)[j] + multiset(v.right)[j] == 1)
      && v.left != [] && v.right != []
      && (forall h: nat :: h < SIGLENBIT ==> (KeyBit(v.l, h) <==> SideBit(entries, v.left, h)))
      && (forall h: nat :: h < SIGLENBIT ==> (KeyBit(v.r, h) <==> SideBit(entries, v.right, h)))
  {
    OffsetsRange(order, |entries|);
    var v := PlaceAll(entries, seed1, seed2, order);
    PlacedOnce(entries, seed1, seed2, order);
    forall j: nat | 1 <= j < |entries| ensures multiset(v.left)[j] + multiset(v.right)[j] == 1 {
      assert (multiset(v.left) + multiset(v.right))[j] == multiset(order)[j];
    }
    forall h: nat | h < SIGLENBIT
      ensures KeyBit(v.l, h) <==> SideBit(entries, v.left, h)
      ensures KeyBit(v.r, h) <==> SideBit(entries, v.right, h)
    {
      PlacedBits(entries, seed1, seed2, order, h);
      SeedBit(entries, v.left, seed1, h);
      SeedBit(entries, v.right, seed2, h);
    }
  }

  lemma SeedBit(entries: seq<SignKey>, side: seq<nat>, seed: nat, h: nat)
    requires Page(entries) && h < SIGLENBIT && seed in side && seed < |entries|
    ensures KeyBit(entries[seed], h) ==> SideBit(entries, side, h)
  {
    var i :| 0 <= i < |side| && side[i] == seed;
  }

  // ----- signatures of any history -----

  /** A page key is the union of keys below it, or one side of a split, or the short form of a key. */
  datatype History = Leaf(x: seq<int>) | Above(parts: seq<History>, keys: seq<SignKey>)
    | Short(of: History, key: SignKey)

  ghost predicate Made(t: History, key: SignKey)
    decreases t
  {
    Valid(key) &&
    match t
    case Leaf(x) => key.Signed? && Signs(key.sign, x)
    case Above(parts, keys) =>
      && |keys| == |parts|
      && (forall i :: 0 <= i < |parts| ==> Made(parts[i], keys[i]))
      && (forall i :: 0 <= i < |keys| ==> Valid(keys[i]))
      && (forall h: nat :: h < SIGLENBIT ==> (KeyBit(key, h) <==> SomeBit(keys, h)))
    case Short(of, from) =>
      && Made(of, from) && Valid(from)
      && (forall h: nat :: h < SIGLENBIT ==> (KeyBit(key, h) <==> KeyBit(from, h)))
  }

  /** The arrays below have an element that hashes to h. */
  ghost predicate HashedBelow(t: History, h: nat)
    decreases t
  {
    match t
    case Leaf(x) => Hashed(x, h)
    case Above(parts, _) => exists i :: 0 <= i < |parts| && HashedBelow(parts[i], h)
    case Short(of, _) => HashedBelow(of, h)
  }

  /** No bit is lost and none is invented, through any number of levels. */
  lemma {:induction false} BitsExactly(t: History, key: SignKey, h: nat)
    requires Made(t, key) && h < SIGLENBIT
    ensures KeyBit(key, h) <==> HashedBelow(t, h)
    decreases t
  {
    match t
    case Leaf(_) =>
    case Above(parts, keys) =>
      forall i | 0 <= i < |parts| ensures KeyBit(keys[i], h) <==> HashedBelow(parts[i], h) {
        BitsExactly(parts[i], keys[i], h);
      }
    case Short(of, from) => BitsExactly(of, from, h);
  }
}
