/** Range keys of gist__int_ops: an internal key of 200 or more integers is stored as 100 ranges. */
module IntRanges {

  const MAX_RANGES: nat := 100
  const INT_MIN: int := -0x8000_0000
  const INT_MAX: int := 0x7fff_ffff

  /** The result of 32-bit arithmetic. */
  function ToInt32(x: int): int {
    (x + 0x8000_0000) % 0x1_0000_0000 - 0x8000_0000
  }

  predicate Increasing(s: seq<int>) {
    forall i, j :: 0 <= i < j < |s| ==> s[i] < s[j]
  }

  predicate Int32s(s: seq<int>) {
    forall i :: 0 <= i < |s| ==> INT_MIN <= s[i] <= INT_MAX
  }

  /** A key as compression sees it: sorted, without duplicates. */
  predicate Key(key: seq<int>) {
    |key| > 0 && Increasing(key) && Int32s(key)
  }

  // ----- ranges as the cuts between neighbouring elements -----

  /** Positions after which one range ends and the next begins. */
  predicate Cuts(key: seq<int>, cuts: seq<int>) {
    Increasing(cuts) && forall k :: 0 <= k < |cuts| ==> 0 <= cuts[k] < |key| - 1
  }

  function Lo(key: seq<int>, cuts: seq<int>, k: nat): int
    requires Key(key) && Cuts(key, cuts) && k <= |cuts|
  {
    if k == 0 then key[0] else key[cuts[k - 1] + 1]
  }

  function Hi(key: seq<int>, cuts: seq<int>, k: nat): int
    requires Key(key) && Cuts(key, cuts) && k <= |cuts|
  {
    if k == |cuts| then key[|key| - 1] else key[cuts[k]]
  }

  /** The flat layout lo, hi, lo, hi, ... of the ranges. */
  predicate Shows(a: seq<int>, key: seq<int>, cuts: seq<int>)
    requires Key(key) && Cuts(key, cuts)
  {
    |a| == 2 * |cuts| + 2 &&
    forall k: nat {:trigger Lo(key, cuts, k)} {:trigger Hi(key, cuts, k)} :: k <= |cuts| ==>
      a[2 * k] == Lo(key, cuts, k) && a[2 * k + 1] == Hi(key, cuts, k)
  }

  /** The gap after position k, as the 32-bit subtraction computes it. */
  function Width(key: seq<int>, k: int): int
    requires 0 <= k < |key| - 1
  {
    ToInt32(key[k + 1] - key[k])
  }

  /** No gap that was closed is wider than one that was kept. */
  predicate Greedy(key: seq<int>, cuts: seq<int>, bound: int)
    requires Cuts(key, cuts)
  {
    forall k :: 0 <= k < |key| - 1 ==> if k in cuts then bound <= Width(key, k) else Width(key, k) <= bound
  }

  // ----- compression -----

  /** Every element becomes a range of its own, in place and from the right. */
  method Double(dr: array<int>, len: nat, ghost key: seq<int>)
    requires |key| == len && dr.Length == 2 * len
    requires forall k :: 0 <= k < len ==> dr[k] == key[k]
    modifies dr
    ensures Doubled(dr[..], key)
  {
    var i := len - 1;
    while i >= 0
      invariant -1 <= i < len
      invariant forall k :: 0 <= k <= i ==> dr[k] == key[k]
      invariant forall k {:trigger key[k]} :: i < k < len ==> dr[2 * k] == key[k]
      invariant forall k {:trigger key[k]} :: i < k < len ==> dr[2 * k + 1] == key[k]
    {
      var x := dr[i];
      dr[2 * i + 1] := x;
      dr[2 * i] := x;
      assert forall k {:trigger key[k]} :: i < k < len ==> dr[2 * k] == key[k];
      i := i - 1;
    }
  }

  predicate Doubled(a: seq<int>, key: seq<int>) {
    |a| == 2 * |key| && forall k {:trigger key[k]} :: 0 <= k < |key| ==> a[2 * k] == key[k] && a[2 * k + 1] == key[k]
  }

  /** The gap between range g and the next one. */
  function GapAt(a: seq<int>, g: nat): int
    requires 2 * g + 2 < |a|
  {
    ToInt32(a[2 * g + 2] - a[2 * g + 1])
  }

  /** The scan for the narrowest gap, the first of several; was is what the variable holds from the round before. */
  method NarrowestGap(a: seq<int>, was: int) returns (cand: int)
    requires |a| % 2 == 0
    requires exists g: nat :: 2 * g + 2 < |a| && GapAt(a, g) < INT_MAX
    ensures cand % 2 == 0 && 2 <= cand < |a|
    ensures forall g: nat :: 2 * g + 2 < |a| ==> GapAt(a, cand / 2 - 1) <= GapAt(a, g)
    ensures forall g: nat :: 2 * g + 2 < cand ==> GapAt(a, cand / 2 - 1) < GapAt(a, g)
  {
    cand := was;
    var min := INT_MAX;
    var i := 2;
    while i < |a|
      invariant i % 2 == 0 && 2 <= i <= |a| + 2
      invariant min < INT_MAX ==> cand % 2 == 0 && 2 <= cand < i && cand < |a| && min == GapAt(a, cand / 2 - 1)
      invariant min <= INT_MAX
      invariant forall g: nat :: 2 * g + 2 < i && 2 * g + 2 < |a| ==> min <= GapAt(a, g)
      invariant min < INT_MAX ==> forall g: nat :: 2 * g + 2 < cand ==> min < GapAt(a, g)
      decreases |a| - i
    {
      assert ToInt32(a[i] - a[i - 1]) == GapAt(a, i / 2 - 1);
      if min > ToInt32(a[i] - a[i - 1]) {
        min := ToInt32(a[i] - a[i - 1]);
        cand := i;
      }
      i := i + 2;
    }
    var g: nat :| 2 * g + 2 < |a| && GapAt(a, g) < INT_MAX;
    assert min <= GapAt(a, g);
  }

  /** Three neighbouring gaps of 32-bit integers cannot all be as wide as INT_MAX. */
  lemma SomeGapIsNarrower(a: seq<int>, key: seq<int>, cuts: seq<int>)
    requires Key(key) && Cuts(key, cuts) && Shows(a, key, cuts) && |cuts| >= 3
    ensures exists g: nat :: 2 * g + 2 < |a| && GapAt(a, g) < INT_MAX
  {
    var c := cuts;
    forall g: nat | g < 3 ensures GapAt(a, g) == Width(key, cuts[g]) { GapIsWidth(a, key, cuts, g); }
    assert key[c[0]] < key[c[0] + 1] <= key[c[1]] < key[c[1] + 1] <= key[c[2]] < key[c[2] + 1];
    assert GapAt(a, 0) < INT_MAX || GapAt(a, 1) < INT_MAX || GapAt(a, 2) < INT_MAX;
  }

  lemma GapIsWidth(a: seq<int>, key: seq<int>, cuts: seq<int>, g: nat)
    requires Key(key) && Cuts(key, cuts) && Shows(a, key, cuts) && g < |cuts|
    ensures 2 * g + 2 < |a| && GapAt(a, g) == Width(key, cuts[g])
  {
    assert a[2 * (g + 1)] == Lo(key, cuts, g + 1);
    assert a[2 * g + 1] == Hi(key, cuts, g);
  }

  /** Moving the tail two places to the left. */
  method MoveLeft(dr: array<int>, cand: nat, len: nat)
    requires 1 <= cand && cand + 1 <= len <= dr.Length
    modifies dr
    ensures dr[..len - 2] == old(dr[..cand - 1]) + old(dr[cand + 1..len])
  {
    forall k | cand - 1 <= k < len - 2 { dr[k] := dr[k + 2]; }
  }

  function Without(cuts: seq<int>, j: nat): (r: seq<int>)
    requires j < |cuts|
    ensures |r| == |cuts| - 1
  {
    cuts[..j] + cuts[j + 1..]
  }

  /** Closing the gap after range j. */
  lemma MergeShows(a: seq<int>, key: seq<int>, cuts: seq<int>, j: nat)
    requires Key(key) && Cuts(key, cuts) && Shows(a, key, cuts) && j < |cuts|
    ensures Cuts(key, Without(cuts, j))
    ensures Shows(a[..2 * j + 1] + a[2 * j + 3..], key, Without(cuts, j))
  {
    var b, less := a[..2 * j + 1] + a[2 * j + 3..], Without(cuts, j);
    forall k: nat | k <= |less| ensures b[2 * k] == Lo(key, less, k) && b[2 * k + 1] == Hi(key, less, k) {
      assert k <= j ==> b[2 * k] == a[2 * k] == Lo(key, cuts, k) == Lo(key, less, k);
      assert k > j ==> b[2 * k] == a[2 * (k + 1)] == Lo(key, cuts, k + 1) == Lo(key, less, k);
      assert k < j ==> b[2 * k + 1] == a[2 * k + 1] == Hi(key, cuts, k) == Hi(key, less, k);
      assert k >= j ==> b[2 * k + 1] == a[2 * (k + 1) + 1] == Hi(key, cuts, k + 1) == Hi(key, less, k);
    }
  }

  lemma MergeGreedy(key: seq<int>, cuts: seq<int>, bound: int, j: nat)
    requires Cuts(key, cuts) && Greedy(key, cuts, bound) && j < |cuts| && Cuts(key, Without(cuts, j))
    requires forall g :: 0 <= g < |cuts| ==> Width(key, cuts[j]) <= Width(key, cuts[g])
    ensures Greedy(key, Without(cuts, j), Width(key, cuts[j]))
  {
    WithoutMembers(cuts, j);
    var less, w := Without(cuts, j), Width(key, cuts[j]);
    forall k | 0 <= k < |key| - 1 ensures if k in less then w <= Width(key, k) else Width(key, k) <= w {
      if k in less {
        var g :| 0 <= g < |cuts| && cuts[g] == k;
      } else if k in cuts {
        assert k == cuts[j];
      } else {
        assert Width(key, k) <= bound <= w by { assert cuts[j] in cuts; }
      }
    }
  }

  lemma WithoutMembers(cuts: seq<int>, j: nat)
    requires Increasing(cuts) && j < |cuts|
    ensures Increasing(Without(cuts, j))
    ensures forall k :: k in Without(cuts, j) <==> k in cuts && k != cuts[j]
  {
    forall k ensures k in Without(cuts, j) <==> k in cuts && k != cuts[j] {
      assert cuts == cuts[..j] + [cuts[j]] + cuts[j + 1..];
      assert cuts[j] !in cuts[..j] && cuts[j] !in cuts[j + 1..];
    }
  }

  /** All the positions: every element a range of its own. */
  function AllCuts(n: nat): seq<int>
    requires n > 0
  {
    seq(n - 1, i => i)
  }

  lemma DoubledShows(a: seq<int>, key: seq<int>)
    requires Key(key) && Doubled(a, key)
    ensures Cuts(key, AllCuts(|key|)) && Shows(a, key, AllCuts(|key|)) && Greedy(key, AllCuts(|key|), INT_MIN)
  {
    var cuts := AllCuts(|key|);
    forall k: nat | k <= |cuts| ensures a[2 * k] == Lo(key, cuts, k) && a[2 * k + 1] == Hi(key, cuts, k) {
      assert key[k] == Lo(key, cuts, k) == Hi(key, cuts, k);
    }
    forall k | 0 <= k < |key| - 1 ensures k in cuts { assert cuts[k] == k; }
  }

  /** An internal key after compression, with the cuts that were kept. */
  method Compress(key: seq<int>) returns (r: seq<int>, ghost cuts: seq<int>)
    requires Increasing(key) && Int32s(key)
    ensures |key| < 2 * MAX_RANGES ==> r == key
    ensures |key| >= 2 * MAX_RANGES ==>
      && |r| == 2 * MAX_RANGES
      && Cuts(key, cuts) && |cuts| == MAX_RANGES - 1 && Shows(r, key, cuts)
      && exists bound :: Greedy(key, cuts, bound)
  {
    cuts := [];
    if |key| == 0 { return key, []; }
    var len := |key|;
    if len < 2 * MAX_RANGES { return key, []; }
    var dr := new int[2 * len](i requires 0 <= i => if i < len then key[i] else 0);
    assert forall k :: 0 <= k < len ==> dr[k] == key[k];
    Double(dr, len, key);
    cuts := AllCuts(len);
    ghost var bound := INT_MIN;
    DoubledShows(dr[..], key);
    len := len * 2;
    assert dr[..len] == dr[..];
    var cand := 1;
    while len > MAX_RANGES * 2
      invariant len == 2 * |cuts| + 2 && MAX_RANGES * 2 <= len <= dr.Length
      invariant Cuts(key, cuts) && Shows(dr[..len], key, cuts) && Greedy(key, cuts, bound)
    {
      cand, cuts, bound := Round(dr, len, cand, key, cuts, bound);
      len := len - 2;
    }
    r := dr[..len];
  }

  /** One round: the narrowest gap is closed. */
  method Round(dr: array<int>, len: nat, was: int, ghost key: seq<int>, ghost cuts: seq<int>, ghost bound: int)
    returns (cand: int, ghost cuts': seq<int>, ghost bound': int)
    requires Key(key) && Cuts(key, cuts) && |cuts| >= 3 && len == 2 * |cuts| + 2 <= dr.Length
    requires Shows(dr[..len], key, cuts) && Greedy(key, cuts, bound)
    modifies dr
    ensures Cuts(key, cuts') && |cuts'| == |cuts| - 1
    ensures Shows(dr[..len - 2], key, cuts') && Greedy(key, cuts', bound')
  {
    ghost var a := dr[..len];
    SomeGapIsNarrower(a, key, cuts);
    cand := NarrowestGap(dr[..len], was);
    ghost var j := cand / 2 - 1;
    GapIsWidth(a, key, cuts, j);
    forall g | 0 <= g < |cuts| ensures Width(key, cuts[j]) <= Width(key, cuts[g]) { GapIsWidth(a, key, cuts, g); }
    MergeShows(a, key, cuts, j);
    MergeGreedy(key, cuts, bound, j);
    MoveLeft(dr, cand, len);
    cuts', bound' := Without(cuts, j), Width(key, cuts[j]);
    assert dr[..len - 2] == a[..2 * j + 1] + a[2 * j + 3..];
  }
}
