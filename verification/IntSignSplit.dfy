/** Splitting a page of gist__intbig_ops, and the keys of pages of any history. */
module IntSignSplit {
  import opened IntSign
  import opened IntSignTree

  // ----- the distance of two keys -----

  function Dist(a: SignKey, b: SignKey): int
    requires Valid(a) && Valid(b)
  {
    if a.AllTrue? then (if b.AllTrue? then 0 else SIGLENBIT - Ones(b.sign, SIGLEN))
    else if b.AllTrue? then SIGLENBIT - Ones(a.sign, SIGLEN)
    else Ones(Diff(a.sign, b.sign), SIGLEN)
  }

  method HemDist(a: SignKey, b: SignKey) returns (dist: int)
    requires Valid(a) && Valid(b)
    ensures dist == Dist(a, b)
  {
    if a.AllTrue? {
      if b.AllTrue? { return 0; }
      var size := SizeBitVec(b.sign);
      return SIGLENBIT - size;
    } else if b.AllTrue? {
      var size := SizeBitVec(a.sign);
      return SIGLENBIT - size;
    }
    dist := HemDistSign(a.sign, b.sign);
  }

  /** How many of the numbers below n have the property. */
  function Count(f: nat -> bool, n: nat): nat {
    if n == 0 then 0 else Count(f, n - 1) + (if f(n - 1) then 1 else 0)
  }

  /** The bits of d say which of the eight numbers from 8 * i on have the property. */
  ghost predicate Marks(d: bv8, f: nat -> bool, i: nat) {
    forall j: nat :: j < 8 ==> (f(8 * i + j) <==> ByteBit(d, j))
  }

  lemma CountByte(d: bv8, f: nat -> bool, i: nat)
    requires Marks(d, f, i)
    ensures Counted(NumberOfOnes(d), f, i)
  {
    CountBit(d, f, i, 0); CountBit(d, f, i, 1); CountBit(d, f, i, 2); CountBit(d, f, i, 3);
    CountBit(d, f, i, 4); CountBit(d, f, i, 5); CountBit(d, f, i, 6); CountBit(d, f, i, 7);
    CountFour(f, 8 * i, One(d, 0), One(d, 1), One(d, 2), One(d, 3));
    CountFour(f, 8 * i + 4, One(d, 4), One(d, 5), One(d, 6), One(d, 7));
  }

  ghost predicate Bumps(f: nat -> bool, n: nat, j: nat, o: nat) {
    Count(f, n + j + 1) == Count(f, n + j) + o
  }

  lemma CountBit(d: bv8, f: nat -> bool, i: nat, j: nat)
    requires j < 8 && Marks(d, f, i)
    ensures Bumps(f, 8 * i, j, One(d, j))
  {
  }

  lemma CountFour(f: nat -> bool, n: nat, o0: nat, o1: nat, o2: nat, o3: nat)
    requires Bumps(f, n, 0, o0) && Bumps(f, n, 1, o1) && Bumps(f, n, 2, o2) && Bumps(f, n, 3, o3)
    ensures Count(f, n + 4) == Count(f, n) + o0 + o1 + o2 + o3
  {
  }

  lemma {:induction false} CountOnes(d: seq<bv8>, f: nat -> bool, i: nat)
    requires i <= |d|
    requires forall k: nat :: k < i ==> Counted(NumberOfOnes(d[k]), f, k)
    ensures Count(f, 8 * i) == Ones(d, i)
  {
    if i > 0 {
      CountOnes(d, f, i - 1);
      assert Counted(NumberOfOnes(d[i - 1]), f, i - 1);
    }
  }

  /** c of the eight numbers from 8 * i on have the property. */
  ghost predicate Counted(c: nat, f: nat -> bool, i: nat) {
    Count(f, 8 * i + 8) == Count(f, 8 * i) + c
  }

  lemma XorMask(x: bv8, y: bv8, j: nat)
    requires j < 8
    ensures ByteBit(x ^ y, j) <==> ByteBit(x, j) != ByteBit(y, j)
  {
    XorSingle(x, y, Mask(j));
  }

  /** For a mask of one bit. */
  lemma XorSingle(x: bv8, y: bv8, m: bv8)
    requires m != 0 && m & (m - 1) == 0
    ensures (x ^ y) & m != 0 <==> (x & m != 0) != (y & m != 0)
  {
  }

  lemma NotMask(x: bv8, j: nat)
    requires j < 8
    ensures ByteBit(x ^ 0xff, j) <==> !ByteBit(x, j)
  {
    XorMask(x, 0xff, j);
    NoBits(j);
  }

  lemma InverseOnes(x: bv8)
    ensures NumberOfOnes(x ^ 0xff) == 8 - NumberOfOnes(x)
  {
    NotMask(x, 0); NotMask(x, 1); NotMask(x, 2); NotMask(x, 3); NotMask(x, 4); NotMask(x, 5); NotMask(x, 6);
    NotMask(x, 7);
  }

  lemma {:induction false} InverseAllOnes(s: seq<bv8>, d: seq<bv8>, n: nat)
    requires Sign(s) && Sign(d) && n <= SIGLEN && forall i :: 0 <= i < SIGLEN ==> d[i] == s[i] ^ 0xff
    ensures Ones(d, n) == 8 * n - Ones(s, n)
  {
    if n > 0 {
      InverseAllOnes(s, d, n - 1);
      InverseOnes(s[n - 1]);
    }
  }

  /** Where two keys differ. */
  predicate Differ(a: SignKey, b: SignKey, h: nat)
    requires Valid(a) && Valid(b)
  {
    h < SIGLENBIT && KeyBit(a, h) != KeyBit(b, h)
  }

  /** The distance is the number of bits that differ, a flagged key having them all. */
  lemma DistIsDiffering(a: SignKey, b: SignKey)
    requires Valid(a) && Valid(b)
    ensures Dist(a, b) == Count((h: nat) => Differ(a, b, h), SIGLENBIT)
  {
    var d, f := Difference(a, b), (h: nat) => Differ(a, b, h);
    forall k: nat | k < SIGLEN ensures Counted(NumberOfOnes(d[k]), f, k) {
      forall j: nat | j < 8 ensures f(8 * k + j) <==> ByteBit(d[k], j) { DifferAt(a, b, k, j); }
      CountByte(d[k], f, k);
    }
    CountOnes(d, f, SIGLEN);
    DistIsOnes(a, b);
  }

  function Difference(a: SignKey, b: SignKey): (d: seq<bv8>)
    requires Valid(a) && Valid(b)
    ensures Sign(d)
  {
    Diff(Full(a), Full(b))
  }

  /** The signature a key stands for. */
  function Full(a: SignKey): (s: seq<bv8>)
    requires Valid(a)
    ensures Sign(s)
  {
    if a.AllTrue? then seq(SIGLEN, i => 0xff) else a.sign
  }

  lemma FullBit(a: SignKey, k: nat, j: nat)
    requires Valid(a) && k < SIGLEN && j < 8
    ensures KeyBit(a, 8 * k + j) <==> ByteBit(Full(a)[k], j)
  {
    assert (8 * k + j) / 8 == k && (8 * k + j) % 8 == j;
    NoBits(j);
  }

  lemma DifferAt(a: SignKey, b: SignKey, k: nat, j: nat)
    requires Valid(a) && Valid(b) && k < SIGLEN && j < 8
    ensures Differ(a, b, 8 * k + j) <==> ByteBit(Difference(a, b)[k], j)
  {
    FullBit(a, k, j);
    FullBit(b, k, j);
    XorMask(Full(a)[k], Full(b)[k], j);
  }

  lemma DistIsOnes(a: SignKey, b: SignKey)
    requires Valid(a) && Valid(b)
    ensures Dist(a, b) == Ones(Difference(a, b), SIGLEN)
  {
    var d := Difference(a, b);
    if a.AllTrue? && b.AllTrue? {
      NoOnes(d, SIGLEN);
    } else if a.AllTrue? {
      forall i | 0 <= i < SIGLEN ensures d[i] == b.sign[i] ^ 0xff { XorFlip(b.sign[i]); }
      InverseAllOnes(b.sign, d, SIGLEN);
    } else if b.AllTrue? {
      InverseAllOnes(a.sign, d, SIGLEN);
    }
  }

  lemma XorFlip(x: bv8)
    ensures 0xff ^ x == x ^ 0xff
  {
  }

  lemma {:induction false} NoOnes(d: seq<bv8>, n: nat)
    requires n <= |d| && forall i :: 0 <= i < |d| ==> d[i] == 0
    ensures Ones(d, n) == 0
  {
    if n > 0 { NoOnes(d, n - 1); }
  }
}
