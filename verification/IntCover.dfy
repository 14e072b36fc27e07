/** What compression loses: the ranges cover the key, and exactly when they cover as little as 100 ranges can. */
module IntCover {
  import opened IntRanges
  import opened IntExpand

  /** The ranges are in order and at least one integer apart. */
  lemma ShownIsClean(a: seq<int>, key: seq<int>, cuts: seq<int>)
    requires Key(key) && Cuts(key, cuts) && Shows(a, key, cuts)
    ensures Ranges(a) && Clean(a, |a| / 2)
    ensures forall k: nat :: 2 * k + 1 < |a| ==> !Touches(a, k)
  {
    forall k: nat | 2 * k + 1 < |a| ensures InOrder(a, k) && !Touches(a, k) {
      assert a[2 * k] == Lo(key, cuts, k) && a[2 * k + 1] == Hi(key, cuts, k);
      if k > 0 { assert a[2 * (k - 1) + 1] == Hi(key, cuts, k - 1); }
    }
  }

  /** The range an element of the key falls into. */
  lemma {:induction false} Covered(a: seq<int>, key: seq<int>, cuts: seq<int>, i: nat, k: nat) returns (r: nat)
    requires Key(key) && Cuts(key, cuts) && Shows(a, key, cuts) && i < |key|
    requires k <= |cuts| && (k > 0 ==> cuts[k - 1] < i)
    ensures r <= |cuts| && 2 * r + 1 < |a| && Within(a, r, key[i])
    decreases |cuts| - k
  {
    if k == |cuts| || i <= cuts[k] {
      r := k;
      assert a[2 * k] == Lo(key, cuts, k) && a[2 * k + 1] == Hi(key, cuts, k);
    } else {
      r := Covered(a, key, cuts, i, k + 1);
    }
  }

  lemma AllCovered(a: seq<int>, key: seq<int>, cuts: seq<int>)
    requires Key(key) && Cuts(key, cuts) && Shows(a, key, cuts) && Ranges(a)
    ensures forall x :: x in key ==> x in All(a)
  {
    forall x | x in key ensures x in All(a) {
      var i :| 0 <= i < |key| && key[i] == x;
      var r := Covered(a, key, cuts, i, 0);
      assert Inside(a, |a| / 2, x);
      ExpandedMeans(a, |a| / 2, x);
    }
  }

  lemma FirstExpanded(a: seq<int>)
    requires Ranges(a) && |a| > 0
    ensures All(a) != [] && All(a)[0] == a[0]
  {
    ExpandedPrefix(a, 1, |a| / 2);
    assert InOrder(a, 0);
    assert Expanded(a, 1) == Span(a[0], a[1]) by { assert Expanded(a, 0) == []; }
  }

  /** Decompressing a compressed key gives a sorted, duplicate-free superset of it. */
  lemma RangesExpand(a: seq<int>, key: seq<int>, cuts: seq<int>)
    requires Key(key) && Cuts(key, cuts) && Shows(a, key, cuts)
    ensures Ranges(a) && Increasing(All(a))
    ensures forall x :: x in key ==> x in All(a)
    ensures All(a) != [] && key[0] == All(a)[0] && key[|key| - 1] == All(a)[|All(a)| - 1]
  {
    ShownIsClean(a, key, cuts);
    ExpandedGrows(a, |a| / 2);
    AllCovered(a, key, cuts);
    FirstExpanded(a);
    assert a[0] == Lo(key, cuts, 0);
    assert a[2 * |cuts| + 1] == Hi(key, cuts, |cuts|);
  }

  // ----- how much is covered -----

  function Gap(key: seq<int>, k: int): int
    requires 0 <= k < |key| - 1
  {
    key[k + 1] - key[k]
  }

  /** The integers that the kept gaps leave out. */
  function Spared(key: seq<int>, cuts: seq<int>): int
    requires Cuts(key, cuts)
  {
    if cuts == [] then 0
    else Spared(key, cuts[..|cuts| - 1]) + Gap(key, cuts[|cuts| - 1]) - 1
  }

  lemma RangeShown(a: seq<int>, key: seq<int>, cuts: seq<int>, k: nat)
    requires Key(key) && Cuts(key, cuts) && Shows(a, key, cuts) && k <= |cuts|
    ensures 2 * k + 1 < |a|
    ensures Start(a, k) == Lo(key, cuts, k) <= Hi(key, cuts, k) == a[2 * k + 1]
    ensures |Expanded(a, k + 1)| == |Expanded(a, k)| + Hi(key, cuts, k) - Lo(key, cuts, k) + 1
  {
    ShownIsClean(a, key, cuts);
    assert a[2 * k] == Lo(key, cuts, k) && a[2 * k + 1] == Hi(key, cuts, k);
    assert InOrder(a, k);
  }

  lemma SparedStep(key: seq<int>, cuts: seq<int>, k: nat)
    requires Key(key) && Cuts(key, cuts) && 0 < k <= |cuts|
    ensures Spared(key, cuts[..k]) == Spared(key, cuts[..k - 1]) + Lo(key, cuts, k) - Hi(key, cuts, k - 1) - 1
  {
    assert cuts[..k][..k - 1] == cuts[..k - 1];
  }

  /** The number of integers covered. */
  lemma {:induction false} CoverSize(a: seq<int>, key: seq<int>, cuts: seq<int>, k: nat)
    requires Key(key) && Cuts(key, cuts) && Shows(a, key, cuts) && k <= |cuts|
    ensures 2 * k + 2 <= |a|
    ensures |Expanded(a, k + 1)| == Hi(key, cuts, k) - key[0] + 1 - Spared(key, cuts[..k])
  {
    RangeShown(a, key, cuts, k);
    if k > 0 {
      CoverSize(a, key, cuts, k - 1);
      SparedStep(key, cuts, k);
    } else {
      assert Spared(key, cuts[..0]) == 0;
    }
  }

  lemma CoverTotal(a: seq<int>, key: seq<int>, cuts: seq<int>)
    requires Key(key) && Cuts(key, cuts) && Shows(a, key, cuts)
    ensures Ranges(a) && |All(a)| == key[|key| - 1] - key[0] + 1 - Spared(key, cuts)
  {
    ShownIsClean(a, key, cuts);
    CoverSize(a, key, cuts, |cuts|);
    assert cuts[..|cuts|] == cuts;
  }

  /** The kept gaps' widths beyond a bound. */
  function Beyond(key: seq<int>, cuts: seq<int>, bound: int): int
    requires Cuts(key, cuts)
  {
    if cuts == [] then 0
    else Beyond(key, cuts[..|cuts| - 1], bound) + Gap(key, cuts[|cuts| - 1]) - bound
  }

  lemma {:induction false} SparedIsBeyond(key: seq<int>, cuts: seq<int>, bound: int)
    requires Cuts(key, cuts)
    ensures Spared(key, cuts) == Beyond(key, cuts, bound) + |cuts| * (bound - 1)
  {
    if cuts != [] {
      var n := |cuts| - 1;
      SparedIsBeyond(key, cuts[..n], bound);
      assert |cuts| * (bound - 1) == n * (bound - 1) + (bound - 1);
    }
  }

  /** All widths beyond the bound among the first m gaps. */
  function Excess(key: seq<int>, bound: int, m: nat): int
    requires m < |key|
  {
    if m == 0 then 0
    else Excess(key, bound, m - 1) + (if Gap(key, m - 1) > bound then Gap(key, m - 1) - bound else 0)
  }

  lemma {:induction false} BeyondAtMost(key: seq<int>, cuts: seq<int>, bound: int, m: nat)
    requires Cuts(key, cuts) && m < |key| && (forall i :: 0 <= i < |cuts| ==> cuts[i] < m)
    ensures Beyond(key, cuts, bound) <= Excess(key, bound, m)
  {
    var n := |cuts|;
    if m > 0 {
      if n > 0 && cuts[n - 1] == m - 1 {
        BeyondAtMost(key, cuts[..n - 1], bound, m - 1);
      } else {
        BeyondAtMost(key, cuts, bound, m - 1);
      }
    }
  }

  /** The widest gaps among the first m, and no others. */
  ghost predicate Widest(key: seq<int>, cuts: seq<int>, bound: int, m: nat)
    requires Cuts(key, cuts) && m < |key|
  {
    && (forall i :: 0 <= i < |cuts| ==> cuts[i] < m && bound <= Gap(key, cuts[i]))
    && (forall k :: 0 <= k < m && k !in cuts ==> Gap(key, k) <= bound)
  }

  lemma {:induction false} BeyondExactly(key: seq<int>, cuts: seq<int>, bound: int, m: nat)
    requires Cuts(key, cuts) && m < |key| && Widest(key, cuts, bound, m)
    ensures Beyond(key, cuts, bound) == Excess(key, bound, m)
  {
    var n := |cuts|;
    if m > 0 {
      if n > 0 && cuts[n - 1] == m - 1 {
        LastTaken(key, cuts, bound, m);
        BeyondExactly(key, cuts[..n - 1], bound, m - 1);
      } else {
        assert m - 1 !in cuts;
        BeyondExactly(key, cuts, bound, m - 1);
      }
    }
  }

  lemma LastTaken(key: seq<int>, cuts: seq<int>, bound: int, m: nat)
    requires Cuts(key, cuts) && 0 < m < |key| && Widest(key, cuts, bound, m)
    requires |cuts| > 0 && cuts[|cuts| - 1] == m - 1
    ensures var fewer := cuts[..|cuts| - 1]; Cuts(key, fewer) && Widest(key, fewer, bound, m - 1)
  {
    var fewer := cuts[..|cuts| - 1];
    assert cuts == fewer + [m - 1];
    assert forall k :: 0 <= k < m - 1 && k !in fewer ==> k !in cuts;
  }

  /** No gap too wide for a 32-bit subtraction. */
  predicate GapsFit(key: seq<int>) {
    forall k :: 0 <= k < |key| - 1 ==> Gap(key, k) <= INT_MAX
  }

  /** No other way to draw as many ranges around the key covers fewer integers. */
  ghost predicate Smallest(key: seq<int>, cuts: seq<int>)
    requires Key(key) && Cuts(key, cuts)
  {
    forall other :: Cuts(key, other) && |other| == |cuts| ==> Spared(key, other) <= Spared(key, cuts)
  }

  lemma GreedyIsSmallest(key: seq<int>, cuts: seq<int>, bound: int)
    requires Key(key) && Cuts(key, cuts) && Greedy(key, cuts, bound) && GapsFit(key)
    ensures Smallest(key, cuts)
  {
    var m := |key| - 1;
    assert forall k :: 0 <= k < m ==> Width(key, k) == Gap(key, k);
    forall i | 0 <= i < |cuts| ensures cuts[i] < m && bound <= Gap(key, cuts[i]) {
      assert cuts[i] in cuts && bound <= Width(key, cuts[i]);
    }
    forall k | 0 <= k < m && k !in cuts ensures Gap(key, k) <= bound { assert Width(key, k) <= bound; }
    BeyondExactly(key, cuts, bound, m);
    SparedIsBeyond(key, cuts, bound);
    forall other | Cuts(key, other) && |other| == |cuts| ensures Spared(key, other) <= Spared(key, cuts) {
      BeyondAtMost(key, other, bound, m);
      SparedIsBeyond(key, other, bound);
    }
  }

  // ----- a gap too wide for 32 bits -----

  /** It looks negative, and every other gap looks positive: it is closed first. */
  lemma TooWideIsClosed(key: seq<int>, cuts: seq<int>, bound: int, w: nat)
    requires Key(key) && Cuts(key, cuts) && Greedy(key, cuts, bound)
    requires w < |key| - 1 && Gap(key, w) > INT_MAX
    ensures (forall k :: 0 <= k < |key| - 1 && k != w ==> Gap(key, k) < Gap(key, w))
    ensures w in cuts ==> forall k :: 0 <= k < |key| - 1 ==> k in cuts
  {
    assert Width(key, w) < 0;
    forall k | 0 <= k < |key| - 1 && k != w ensures 0 < Width(key, k) && Gap(key, k) < Gap(key, w) {
      assert key[0] <= key[if k < w then k else w] && key[if k < w then w + 1 else k + 1] <= key[|key| - 1];
      assert Gap(key, k) + Gap(key, w) <= key[|key| - 1] - key[0] <= 0xffff_ffff by {
        assert key[if k < w then k + 1 else w + 1] <= key[if k < w then w else k];
      }
    }
  }

  /** The cuts with w put in its place. */
  function With(cuts: seq<int>, w: int): (r: seq<int>)
    requires Increasing(cuts) && w !in cuts
    ensures |r| == |cuts| + 1 && Increasing(r)
    ensures forall c :: c in r <==> c in cuts || c == w
  {
    if cuts == [] then [w]
    else
      var n := |cuts| - 1;
      if cuts[n] < w then cuts + [w]
      else
        var shorter := With(cuts[..n], w);
        assert forall i :: 0 <= i < |shorter| ==> shorter[i] in shorter;
        assert cuts == cuts[..n] + [cuts[n]];
        shorter + [cuts[n]]
  }

  lemma {:induction false} WithSpares(key: seq<int>, cuts: seq<int>, w: nat)
    requires Cuts(key, cuts) && w !in cuts && w < |key| - 1
    ensures Cuts(key, With(cuts, w)) && Spared(key, With(cuts, w)) == Spared(key, cuts) + Gap(key, w) - 1
  {
    var r, n := With(cuts, w), |cuts| - 1;
    forall k | 0 <= k < |r| ensures 0 <= r[k] < |key| - 1 { assert r[k] in r; }
    if cuts == [] {
      assert r[..0] == [];
    } else if cuts[n] < w {
      assert r[..n + 1] == cuts;
    } else {
      WithSpares(key, cuts[..n], w);
      assert r[..n + 1] == With(cuts[..n], w);
    }
  }

  /** Compression covers as little as that many ranges can, exactly when no gap overflows. */
  lemma SmallestExactly(key: seq<int>, cuts: seq<int>, bound: int)
    requires Key(key) && Cuts(key, cuts) && Greedy(key, cuts, bound) && 0 < |cuts| < |key| - 1
    ensures Smallest(key, cuts) <==> GapsFit(key)
  {
    if GapsFit(key) {
      GreedyIsSmallest(key, cuts, bound);
    } else {
      var w :| 0 <= w < |key| - 1 && Gap(key, w) > INT_MAX;
      TooWideIsClosed(key, cuts, bound, w);
      assert w !in cuts by { if w in cuts { AllNeedsMore(cuts, |key| - 1); } }
      var n := |cuts| - 1;
      var fewer := cuts[..n];
      WithSpares(key, fewer, w);
      assert Gap(key, cuts[n]) < Gap(key, w) by { assert cuts[n] in cuts; }
      assert Spared(key, With(fewer, w)) > Spared(key, cuts);
    }
  }

  lemma {:induction false} ExcessTelescopes(key: seq<int>, m: nat)
    requires Increasing(key) && m < |key|
    ensures Excess(key, 1, m) == key[m] - key[0] - m
  {
    if m > 0 { ExcessTelescopes(key, m - 1); }
  }

  /**
   A compressed key can be read back exactly when an array holds what it covers, and the largest integer is
   not covered.
   */
  lemma ReadableExactly(a: seq<int>, key: seq<int>, cuts: seq<int>)
    requires Key(key) && Cuts(key, cuts) && Shows(a, key, cuts)
    ensures Expandable(a) <==>
      ARRAY_HEADER + 4 * (key[|key| - 1] - key[0] + 1 - Spared(key, cuts)) <= MAX_ALLOC && key[|key| - 1] < INT_MAX
  {
    ShownIsClean(a, key, cuts);
    CoverTotal(a, key, cuts);
    assert a[2 * |cuts| + 1] == Hi(key, cuts, |cuts|);
  }

  // 0, 3000000, ..., 597000000: no gap overflows, and 99 of them are kept.
  function Even(): (key: seq<int>)
    ensures |key| == 200 && forall i :: 0 <= i < 200 ==> key[i] == 3_000_000 * i
  {
    seq(200, i requires 0 <= i < 200 => 3_000_000 * i)
  }

  lemma {:induction false} EvenSpares(cuts: seq<int>)
    requires Cuts(Even(), cuts)
    ensures Spared(Even(), cuts) == 2_999_999 * |cuts|
  {
    if cuts != [] {
      assert Cuts(Even(), cuts[..|cuts| - 1]);
      EvenSpares(cuts[..|cuts| - 1]);
    }
  }

  lemma EvenKey()
    ensures Key(Even()) && GapsFit(Even()) && Even()[199] < INT_MAX
  {
    var key := Even();
    forall i, j | 0 <= i < j < |key| ensures key[i] < key[j] {}
  }

  /** A key without an overflowing gap; whichever gaps are kept, the allocator refuses the array for what is covered. */
  lemma EvenIsRefused(a: seq<int>, key: seq<int>, cuts: seq<int>)
    requires key == Even() && Key(key) && Cuts(key, cuts) && |cuts| == MAX_RANGES - 1 && Shows(a, key, cuts)
    ensures GapsFit(key) && key[199] < INT_MAX
    ensures |a| % 2 == 0 && !Allocates(ToInt32(Size(a, |a| / 2)))
  {
    EvenKey();
    EvenSpares(cuts);
    ShownIsClean(a, key, cuts);
    CoverTotal(a, key, cuts);
    SizeExactly(a, |a| / 2);
    assert Size(a, |a| / 2) == 300_000_100;
  }

  /** A closed gap that overflows leaves a key that cannot be read back. */
  lemma TooWideIsUnreadable(a: seq<int>, key: seq<int>, cuts: seq<int>, w: nat)
    requires Key(key) && Cuts(key, cuts) && Shows(a, key, cuts)
    requires w < |key| - 1 && w !in cuts && Gap(key, w) > INT_MAX
    ensures !Expandable(a)
  {
    var more := With(cuts, w);
    WithSpares(key, cuts, w);
    BeyondAtMost(key, more, 1, |key| - 1);
    SparedIsBeyond(key, more, 1);
    ExcessTelescopes(key, |key| - 1);
    ReadableExactly(a, key, cuts);
  }

  /** An increasing sequence that holds every number below m has at least m elements. */
  lemma {:induction false} AllNeedsMore(cuts: seq<int>, m: nat)
    requires forall k :: 0 <= k < m ==> k in cuts
    ensures |cuts| >= m
    decreases m
  {
    if m > 0 {
      assert m - 1 in cuts;
      var at :| 0 <= at < |cuts| && cuts[at] == m - 1;
      var rest := cuts[..at] + cuts[at + 1..];
      forall k | 0 <= k < m - 1 ensures k in rest {
        assert k in cuts;
        var i :| 0 <= i < |cuts| && cuts[i] == k;
        assert rest[if i < at then i else i - 1] == k;
      }
      AllNeedsMore(rest, m - 1);
    }
  }
}
