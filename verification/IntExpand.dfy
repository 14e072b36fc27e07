/** Reading range keys back: what they cover, how long the result is, and when no other 100 ranges cover less. */
module IntExpand {
  import opened IntRanges

  /** A flat list of ranges in order; a range may begin where the one before it ends. */
  ghost predicate Ranges(a: seq<int>) {
    |a| % 2 == 0 && forall k: nat :: 2 * k + 1 < |a| ==> InOrder(a, k)
  }

  predicate InOrder(a: seq<int>, k: nat)
    requires 2 * k + 1 < |a|
  {
    a[2 * k] <= a[2 * k + 1] && (k > 0 ==> a[2 * k - 1] <= a[2 * k])
  }

  predicate Within(a: seq<int>, k: nat, x: int)
    requires 2 * k + 1 < |a|
  {
    a[2 * k] <= x <= a[2 * k + 1]
  }

  /** lo, lo + 1, ..., hi. */
  function Span(lo: int, hi: int): seq<int> {
    if lo > hi then [] else seq(hi - lo + 1, i => lo + i)
  }

  /** Range k begins with the value that ends the range before it. */
  predicate Touches(a: seq<int>, k: nat)
    requires 2 * k + 1 < |a|
  {
    k > 0 && a[2 * k] == a[2 * k - 1]
  }

  /** The integers of the first k ranges, each written once. */
  function Expanded(a: seq<int>, k: nat): seq<int>
    requires 2 * k <= |a|
  {
    if k == 0 then []
    else Expanded(a, k - 1) + Span(Start(a, k - 1), a[2 * k - 1])
  }

  ghost function All(a: seq<int>): seq<int>
    requires Ranges(a)
  {
    Expanded(a, |a| / 2)
  }

  /** The first integer that range k adds. */
  function Start(a: seq<int>, k: nat): int
    requires 2 * k + 1 < |a|
  {
    if Touches(a, k) then a[2 * k] + 1 else a[2 * k]
  }

  /** Sorted without duplicates, ending with the last bound. */
  lemma {:induction false} ExpandedGrows(a: seq<int>, k: nat)
    requires Ranges(a) && 2 * k <= |a|
    ensures Increasing(Expanded(a, k))
    ensures k > 0 ==> |Expanded(a, k)| > 0 && Expanded(a, k)[|Expanded(a, k)| - 1] == a[2 * k - 1]
  {
    if k > 0 {
      assert InOrder(a, k - 1);
      ExpandedGrows(a, k - 1);
      AppendSpan(Expanded(a, k - 1), Start(a, k - 1), a[2 * k - 1]);
    }
  }

  lemma AppendSpan(before: seq<int>, lo: int, hi: int)
    requires Increasing(before) && (before != [] ==> before[|before| - 1] < lo)
    ensures Increasing(before + Span(lo, hi))
    ensures lo <= hi ==> |Span(lo, hi)| > 0 && Span(lo, hi)[|Span(lo, hi)| - 1] == hi
  {
    assert forall i :: 0 <= i < |before| ==> before[i] < lo;
    assert forall i :: 0 <= i < |Span(lo, hi)| ==> Span(lo, hi)[i] == lo + i;
  }

  lemma SpanMeans(lo: int, hi: int, x: int)
    ensures x in Span(lo, hi) <==> lo <= x <= hi
  {
    if lo <= x <= hi { assert Span(lo, hi)[x - lo] == x; }
  }

  /** Inside one of the first k ranges. */
  predicate Inside(a: seq<int>, k: nat, x: int)
    requires 2 * k <= |a|
  {
    exists j: nat :: j < k && Within(a, j, x)
  }

  /** Exactly the integers inside some range. */
  lemma {:induction false} ExpandedMeans(a: seq<int>, k: nat, x: int)
    requires Ranges(a) && 2 * k <= |a|
    ensures x in Expanded(a, k) <==> Inside(a, k, x)
  {
    if k > 0 {
      ExpandedMeans(a, k - 1, x);
      SpanMeans(Start(a, k - 1), a[2 * k - 1], x);
      InsideOneMore(a, k - 1, x);
    }
  }

  lemma InsideOneMore(a: seq<int>, k: nat, x: int)
    requires Ranges(a) && 2 * k + 1 < |a|
    ensures Inside(a, k + 1, x) <==> Inside(a, k, x) || Start(a, k) <= x <= a[2 * k + 1]
  {
    assert Inside(a, k + 1, x) <==> Inside(a, k, x) || Within(a, k, x) by {
      if Within(a, k, x) { assert Inside(a, k + 1, x); }
    }
    if Touches(a, k) {
      assert InOrder(a, k - 1);
      assert x == a[2 * k] ==> Within(a, k - 1, x);
    }
  }

  // ----- the length computed beforehand -----

  /** The sum of the lengths, where a range that touches the one before it counts nothing. */
  function Size(a: seq<int>, k: nat): int
    requires 2 * k <= |a|
  {
    if k == 0 then 0
    else Size(a, k - 1) + (if Touches(a, k - 1) then 0 else a[2 * k - 1] - a[2 * k - 2] + 1)
  }

  lemma WrapAdds(x: int, y: int)
    ensures ToInt32(ToInt32(x) + y) == ToInt32(x + y) == ToInt32(x + ToInt32(y))
  {
  }

  method InternalSize(a: seq<int>) returns (size: int)
    requires |a| % 2 == 0
    ensures size == ToInt32(Size(a, |a| / 2))
  {
    size := 0;
    var i := 0;
    while i < |a|
      invariant 0 <= i <= |a| && i % 2 == 0
      invariant size == ToInt32(Size(a, i / 2))
    {
      if i == 0 || a[i] != a[i - 1] {
        WrapAdds(a[i + 1] - a[i], 1);
        WrapAdds(Size(a, i / 2), ToInt32(a[i + 1] - a[i] + 1));
        WrapAdds(Size(a, i / 2), a[i + 1] - a[i] + 1);
        size := ToInt32(size + ToInt32(ToInt32(a[i + 1] - a[i]) + 1));
      }
      assert Touches(a, i / 2) <==> i > 0 && a[i] == a[i - 1];
      i := i + 2;
    }
  }

  /** Ranges that touch the one before them hold nothing else. */
  predicate Clean(a: seq<int>, k: nat)
    requires 2 * k <= |a|
  {
    forall j: nat :: j < k && Touches(a, j) ==> a[2 * j + 1] == a[2 * j]
  }

  /** The precomputed length is the number of integers written, exactly on clean ranges. */
  lemma {:induction false} SizeExactly(a: seq<int>, k: nat)
    requires Ranges(a) && 2 * k <= |a|
    ensures Size(a, k) <= |Expanded(a, k)|
    ensures Size(a, k) == |Expanded(a, k)| <==> Clean(a, k)
  {
    if k > 0 {
      SizeExactly(a, k - 1);
      assert InOrder(a, k - 1);
      assert Clean(a, k) <==> Clean(a, k - 1) && (Touches(a, k - 1) ==> a[2 * (k - 1) + 1] == a[2 * (k - 1)]);
    }
  }

  /** The n-th value of a 32-bit counter that starts at lo. */
  function Counter(lo: int, n: nat): int {
    ToInt32(lo + n)
  }

  /** A loop that counts a 32-bit integer up past hi ends exactly if hi is not the largest one. */
  lemma CountingEndsExactly(lo: int, hi: int)
    requires INT_MIN <= lo <= hi <= INT_MAX
    ensures (exists n: nat :: Counter(lo, n) > hi) <==> hi < INT_MAX
  {
    if hi < INT_MAX {
      assert Counter(lo, hi + 1 - lo) > hi;
    }
  }

  // ----- the allocation -----

  /** The largest request that the allocator serves, and what an array takes beside its elements. */
  const MAX_ALLOC: nat := 0x3fff_ffff
  const ARRAY_HEADER: nat := 24

  /** The 32-bit size of an array of num integers. */
  function Bytes(num: int): int {
    ToInt32(ARRAY_HEADER + 4 * num)
  }

  predicate Allocates(num: int) {
    0 <= Bytes(num) <= MAX_ALLOC
  }

  /** Everything that the loops write lies inside the array allocated for the computed length, and they end. */
  predicate StaysInside(a: seq<int>)
    requires |a| > 0 && |a| % 2 == 0
  {
    && ARRAY_HEADER + 4 * |Expanded(a, |a| / 2)| <= Bytes(ToInt32(Size(a, |a| / 2)))
    && a[|a| - 1] < INT_MAX
  }

  /** Clean ranges of so few integers that an array holds them, none of them the largest. */
  ghost predicate Expandable(a: seq<int>) {
    && Ranges(a) && |a| > 0
    && Clean(a, |a| / 2) && ARRAY_HEADER + 4 * |All(a)| <= MAX_ALLOC && a[|a| - 1] < INT_MAX
  }

  /** The array is allocated and holds the expansion exactly if the ranges are expandable. */
  lemma ExpandableExactly(a: seq<int>)
    requires Ranges(a) && |a| > 0
    ensures Allocates(ToInt32(Size(a, |a| / 2))) && StaysInside(a) <==> Expandable(a)
  {
    var k := |a| / 2;
    SizeExactly(a, k);
    SizePositive(a, k);
    var size, all := Size(a, k), |Expanded(a, k)|;
    if ARRAY_HEADER + 4 * all <= MAX_ALLOC {
      assert ToInt32(size) == size && Bytes(size) == ARRAY_HEADER + 4 * size;
    }
  }

  lemma {:induction false} SizePositive(a: seq<int>, k: nat)
    requires Ranges(a) && 2 * k <= |a|
    ensures Size(a, k) >= 0
  {
    if k > 0 { SizePositive(a, k - 1); assert InOrder(a, k - 1); }
  }

  /** Undefined: the loops write past the allocation, or count past the largest integer for ever. */
  datatype Reading = Read(elements: seq<int>) | Refused | Undefined

  method Decompress(key: seq<int>) returns (r: Reading)
    requires |key| >= 2 * MAX_RANGES ==> Ranges(key) && Int32s(key)
    ensures |key| < 2 * MAX_RANGES ==> r == Read(key)
    ensures |key| >= 2 * MAX_RANGES ==> (r.Read? <==> Expandable(key)) && (r.Read? ==> r.elements == All(key))
    ensures |key| >= 2 * MAX_RANGES ==> (r == Refused <==> !Allocates(ToInt32(Size(key, |key| / 2))))
  {
    if |key| == 0 { return Read(key); }
    if |key| < 2 * MAX_RANGES { return Read(key); }
    var lenr := InternalSize(key);
    ExpandableExactly(key);
    if !Allocates(lenr) { return Refused; }
    if !StaysInside(key) { return Undefined; }
    SizeExactly(key, |key| / 2);
    var dr := new int[lenr];
    ExpandAll(key, dr);
    r := Read(dr[..]);
  }

  method ExpandAll(key: seq<int>, dr: array<int>)
    requires Expandable(key) && Int32s(key) && dr.Length == |All(key)|
    modifies dr
    ensures dr[..] == All(key)
  {
    var at, i := 0, 0;
    ghost var k := 0;
    while i < |key|
      invariant 0 <= i == 2 * k <= |key|
      invariant at == |Expanded(key, k)| <= dr.Length
      invariant forall p :: 0 <= p < at ==> dr[p] == All(key)[p]
    {
      at := ExpandOne(key, i, k, dr, at);
      i, k := i + 2, k + 1;
    }
    assert k == |key| / 2;
  }

  lemma {:induction false} ExpandedPrefix(a: seq<int>, k: nat, m: nat)
    requires k <= m && 2 * m <= |a|
    ensures Expanded(a, k) <= Expanded(a, m)
    decreases m
  {
    if k < m { ExpandedPrefix(a, k, m - 1); }
  }

  lemma {:induction false} LastIsLargest(a: seq<int>, k: nat)
    requires Ranges(a) && 2 * k + 1 < |a|
    ensures a[2 * k + 1] <= a[|a| - 1]
    decreases |a| - k
  {
    if 2 * k + 3 < |a| {
      LastIsLargest(a, k + 1);
      assert InOrder(a, k + 1);
    }
  }

  /** What range k adds to the expansion, place by place. */
  lemma RangeAdds(a: seq<int>, k: nat)
    requires Ranges(a) && 2 * k + 1 < |a|
    ensures var at, hi := |Expanded(a, k)|, a[2 * k + 1];
      && at + (if Start(a, k) <= hi then hi + 1 - Start(a, k) else 0) == |Expanded(a, k + 1)| <= |All(a)|
      && (k > 0 ==> at > 0 && All(a)[at - 1] == a[2 * k - 1])
      && forall p :: at <= p < |Expanded(a, k + 1)| ==> All(a)[p] == Start(a, k) + (p - at)
  {
    ExpandedGrows(a, k);
    ExpandedPrefix(a, k + 1, |a| / 2);
    var before, more := Expanded(a, k), Span(Start(a, k), a[2 * k + 1]);
    assert Expanded(a, k + 1) == before + more;
    assert |before| > 0 ==> All(a)[|before| - 1] == (before + more)[|before| - 1];
    forall p | |before| <= p < |before + more| ensures All(a)[p] == Start(a, k) + (p - |before|) {
      assert (before + more)[p] == more[p - |before|];
    }
  }

  /** The inner loop: the range at i, after at integers have been written. */
  method ExpandOne(key: seq<int>, i: nat, ghost k: nat, dr: array<int>, at: nat) returns (at': nat)
    requires Expandable(key) && Int32s(key) && i == 2 * k && i + 1 < |key|
    requires at == |Expanded(key, k)| <= dr.Length == |All(key)|
    requires forall p :: 0 <= p < at ==> dr[p] == All(key)[p]
    modifies dr
    ensures at' == |Expanded(key, k + 1)| <= dr.Length
    ensures forall p :: 0 <= p < at' ==> dr[p] == All(key)[p]
  {
    assert InOrder(key, k);
    RangeAdds(key, k);
    LastIsLargest(key, k);
    at' := WriteRange(i == 0, key[i], key[i + 1], dr, at, All(key), Start(key, k));
  }

  method WriteRange(first: bool, lo: int, hi: int, dr: array<int>, at: nat, ghost all: seq<int>, ghost start: int)
    returns (at': nat)
    requires INT_MIN <= lo <= hi < INT_MAX && lo <= start <= lo + 1
    requires |all| == dr.Length && at + (if start <= hi then hi + 1 - start else 0) <= |all|
    requires forall p :: 0 <= p < at ==> dr[p] == all[p]
    requires forall p :: at <= p < at + (hi + 1 - start) ==> all[p] == start + (p - at)
    requires !first ==> at > 0 && all[at - 1] <= lo
    requires start > lo <==> !first && all[at - 1] == lo
    modifies dr
    ensures at' == at + (if start <= hi then hi + 1 - start else 0)
    ensures forall p :: 0 <= p < at' ==> dr[p] == all[p]
  {
    at' := at;
    var j := lo;
    while j <= hi
      invariant lo <= j <= hi + 1
      invariant at' == at + (if j > start then j - start else 0) <= |all|
      invariant forall p :: 0 <= p < at' ==> dr[p] == all[p]
      decreases hi - j
    {
      if first || dr[at' - 1] != j {
        dr[at'] := j;
        at' := at' + 1;
      }
      j := ToInt32(j + 1);
    }
  }
}
