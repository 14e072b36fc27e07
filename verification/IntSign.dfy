/** Bit signatures of integer arrays, for gist__intbig_ops. */
module IntSign {

  const SIGLEN: nat := 4 * 63
  const SIGLENBIT: nat := 8 * SIGLEN

  /** The remainder is taken of the unsigned value. */
  function HashVal(v: int): (h: nat)
    ensures h < SIGLENBIT
  {
    (v % 0x1_0000_0000) % SIGLENBIT
  }

  /** Of a 32-bit integer: a negative one counts from 2^32. */
  lemma HashOfInt32(v: int)
    requires -0x8000_0000 <= v < 0x8000_0000
    ensures exists k :: (if v < 0 then v + 0x1_0000_0000 else v) == k * SIGLENBIT + HashVal(v)
    ensures HashVal(v) == HashVal(v + 0x1_0000_0000)
  {
    var u := if v < 0 then v + 0x1_0000_0000 else v;
    assert v % 0x1_0000_0000 == u && (v + 0x1_0000_0000) % 0x1_0000_0000 == u;
    assert u == u / SIGLENBIT * SIGLENBIT + u % SIGLENBIT;
  }

  /** One shifted left by j. */
  function Mask(j: nat): bv8
    requires j < 8
  {
    if j == 0 then 0x01 else if j == 1 then 0x02 else if j == 2 then 0x04 else if j == 3 then 0x08
    else if j == 4 then 0x10 else if j == 5 then 0x20 else if j == 6 then 0x40 else 0x80
  }

  predicate ByteBit(b: bv8, j: nat)
    requires j < 8
  {
    b & Mask(j) != 0
  }

  predicate Sign(s: seq<bv8>) {
    |s| == SIGLEN
  }

  predicate Bit(s: seq<bv8>, h: nat)
    requires Sign(s) && h < SIGLENBIT
  {
    ByteBit(s[h / 8], h % 8)
  }

  // ----- bytes -----

  lemma OrBit(a: bv8, b: bv8, j: nat)
    requires j < 8
    ensures ByteBit(a | b, j) <==> ByteBit(a, j) || ByteBit(b, j)
  {
    OrMask(a, b, Mask(j));
  }

  lemma OrMask(a: bv8, b: bv8, m: bv8)
    ensures (a | b) & m != 0 <==> a & m != 0 || b & m != 0
  {
    assert (a | b) & m == (a & m) | (b & m);
  }

  lemma MaskBit(k: nat, j: nat)
    requires k < 8 && j < 8
    ensures ByteBit(Mask(k), j) <==> j == k
  {
  }

  lemma NoBits(j: nat)
    requires j < 8
    ensures !ByteBit(0, j) && ByteBit(0xff, j)
  {
  }

  predicate AllBits(b: bv8) {
    ByteBit(b, 0) && ByteBit(b, 1) && ByteBit(b, 2) && ByteBit(b, 3) &&
    ByteBit(b, 4) && ByteBit(b, 5) && ByteBit(b, 6) && ByteBit(b, 7)
  }

  lemma FullByte(b: bv8)
    ensures b == 0xff <==> forall j: nat :: j < 8 ==> ByteBit(b, j)
  {
    assert AllBits(b) <==> b == 0xff;
    if b == 0xff { forall j: nat | j < 8 ensures ByteBit(b, j) { NoBits(j); } }
  }

  /** Nothing of a outside b. */
  lemma InsideByte(a: bv8, b: bv8)
    ensures a & !b == 0 <==> forall j: nat :: j < 8 && ByteBit(a, j) ==> ByteBit(b, j)
  {
    if a & !b == 0 {
      forall j: nat | j < 8 && ByteBit(a, j) ensures ByteBit(b, j) { InsideMask(a, b, Mask(j)); }
    }
    if a & !b != 0 {
      var c := a & !b;
      assert ByteBit(c, 0) || ByteBit(c, 1) || ByteBit(c, 2) || ByteBit(c, 3) ||
             ByteBit(c, 4) || ByteBit(c, 5) || ByteBit(c, 6) || ByteBit(c, 7);
      var j: nat :| j < 8 && ByteBit(c, j);
      assert ByteBit(c, j);
      OutsideMask(a, b, c, Mask(j));
      assert ByteBit(a, j) && !ByteBit(b, j) by { SingleMask(b, j); }
    }
  }

  lemma InsideMask(a: bv8, b: bv8, m: bv8)
    requires a & !b == 0 && a & m != 0
    ensures b & m != 0
  {
  }

  lemma OutsideMask(a: bv8, b: bv8, c: bv8, m: bv8)
    requires c == a & !b && c & m != 0
    ensures a & m != 0 && !b & m != 0
  {
  }

  lemma SingleMask(b: bv8, j: nat)
    requires j < 8 && !b & Mask(j) != 0
    ensures b & Mask(j) == 0
  {
  }

  // ----- signatures -----

  ghost predicate Hashed(x: seq<int>, h: nat) {
    exists i :: 0 <= i < |x| && HashVal(x[i]) == h
  }

  /** The bits that are set are the hash values of the elements. */
  ghost predicate Signs(s: seq<bv8>, x: seq<int>) {
    Sign(s) && forall h: nat :: h < SIGLENBIT ==> (Bit(s, h) <==> Hashed(x, h))
  }

  method Hash(sign: array<bv8>, v: int)
    requires sign.Length == SIGLEN
    modifies sign
    ensures forall h: nat :: h < SIGLENBIT ==> (Bit(sign[..], h) <==> h == HashVal(v) || old(Bit(sign[..], h)))
  {
    var at := HashVal(v);
    ghost var was := sign[..];
    sign[at / 8] := sign[at / 8] | Mask(at % 8);
    forall h: nat | h < SIGLENBIT ensures Bit(sign[..], h) <==> h == at || Bit(was, h) {
      if h / 8 == at / 8 {
        OrBit(was[at / 8], Mask(at % 8), h % 8);
        MaskBit(at % 8, h % 8);
      }
    }
  }

  /** The signature of an array. */
  method GenSign(x: seq<int>) returns (s: seq<bv8>)
    ensures Signs(s, x)
  {
    var sign := new bv8[SIGLEN](i => 0);
    forall h: nat | h < SIGLENBIT ensures !Bit(sign[..], h) { NoBits(h % 8); }
    for i := 0 to |x|
      invariant forall h: nat :: h < SIGLENBIT ==> (Bit(sign[..], h) <==> Hashed(x[..i], h))
    {
      Hash(sign, x[i]);
      forall h: nat | h < SIGLENBIT ensures Hashed(x[..i + 1], h) <==> Hashed(x[..i], h) || h == HashVal(x[i]) {
        HashedOneMore(x, i, h);
      }
    }
    assert x[..|x|] == x;
    s := sign[..];
  }

  lemma HashedOneMore(x: seq<int>, i: nat, h: nat)
    requires i < |x|
    ensures Hashed(x[..i + 1], h) <==> Hashed(x[..i], h) || h == HashVal(x[i])
  {
    var less, more := x[..i], x[..i + 1];
    assert more == less + [x[i]];
    if h == HashVal(x[i]) { assert HashVal(more[i]) == h; }
    if Hashed(less, h) {
      var j :| 0 <= j < |less| && HashVal(less[j]) == h;
      assert HashVal(more[j]) == h;
    }
    if Hashed(more, h) {
      var j :| 0 <= j < |more| && HashVal(more[j]) == h;
      assert j < i ==> HashVal(less[j]) == h;
    }
  }

  /** Byte by byte, de has nothing outside dq. */
  method InsideSign(de: seq<bv8>, dq: seq<bv8>) returns (res: bool)
    requires Sign(de) && Sign(dq)
    ensures res <==> forall h: nat :: h < SIGLENBIT && Bit(de, h) ==> Bit(dq, h)
  {
    for i := 0 to SIGLEN
      invariant forall h: nat :: h < 8 * i && Bit(de, h) ==> Bit(dq, h)
    {
      InsideByte(de[i], dq[i]);
      if de[i] & !dq[i] != 0 {
        var j: nat :| j < 8 && ByteBit(de[i], j) && !ByteBit(dq[i], j);
        var h := 8 * i + j;
        assert h / 8 == i && h % 8 == j;
        assert Bit(de, h) && !Bit(dq, h);
        return false;
      }
      forall h: nat | 8 * i <= h < 8 * (i + 1) && Bit(de, h) ensures Bit(dq, h) { assert h / 8 == i; }
    }
    res := true;
  }

  method SameSign(de: seq<bv8>, dq: seq<bv8>) returns (res: bool)
    requires Sign(de) && Sign(dq)
    ensures res <==> de == dq
  {
    for i := 0 to SIGLEN
      invariant forall k :: 0 <= k < i ==> de[k] == dq[k]
    {
      if de[i] != dq[i] { return false; }
    }
    res := true;
  }

  lemma SameByte(a: bv8, b: bv8)
    requires forall j: nat :: j < 8 ==> (ByteBit(a, j) <==> ByteBit(b, j))
    ensures a == b
  {
    InsideByte(a, b);
    InsideByte(b, a);
    NoDifference(a, b);
  }

  lemma NoDifference(a: bv8, b: bv8)
    requires a & !b == 0 && b & !a == 0
    ensures a == b
  {
  }

  /** A signature is determined by its bits: arrays with the same elements have the same signature. */
  lemma SignsOnce(s: seq<bv8>, s': seq<bv8>, x: seq<int>, x': seq<int>)
    requires Signs(s, x) && Signs(s', x') && forall v :: v in x <==> v in x'
    ensures s == s'
  {
    forall h: nat | h < SIGLENBIT ensures Bit(s, h) <==> Bit(s', h) {
      if Hashed(x, h) { var i :| 0 <= i < |x| && HashVal(x[i]) == h; assert x[i] in x'; }
      if Hashed(x', h) { var i :| 0 <= i < |x'| && HashVal(x'[i]) == h; assert x'[i] in x; }
    }
    forall i | 0 <= i < SIGLEN ensures s[i] == s'[i] {
      forall j: nat | j < 8 ensures ByteBit(s[i], j) <==> ByteBit(s'[i], j) {
        var h := 8 * i + j;
        assert h / 8 == i && h % 8 == j;
        assert Bit(s, h) <==> Bit(s', h);
      }
      SameByte(s[i], s'[i]);
    }
  }

  // ----- distances -----

  function One(b: bv8, j: nat): nat
    requires j < 8
  {
    if ByteBit(b, j) then 1 else 0
  }

  /** The table of one-bits. */
  function NumberOfOnes(b: bv8): nat {
    One(b, 0) + One(b, 1) + One(b, 2) + One(b, 3) + One(b, 4) + One(b, 5) + One(b, 6) + One(b, 7)
  }

  /** One-bits among the first n bytes. */
  function Ones(s: seq<bv8>, n: nat): nat
    requires n <= |s|
  {
    if n == 0 then 0 else Ones(s, n - 1) + NumberOfOnes(s[n - 1])
  }

  method SizeBitVec(s: seq<bv8>) returns (size: nat)
    requires Sign(s)
    ensures size == Ones(s, SIGLEN)
  {
    size := 0;
    for i := 0 to SIGLEN
      invariant size == Ones(s, i)
    {
      size := size + NumberOfOnes(s[i]);
    }
  }

  /** Bytes that differ, bit by bit. */
  function Diff(a: seq<bv8>, b: seq<bv8>): seq<bv8>
    requires Sign(a) && Sign(b)
  {
    seq(SIGLEN, i requires 0 <= i < SIGLEN => a[i] ^ b[i])
  }

  method HemDistSign(a: seq<bv8>, b: seq<bv8>) returns (dist: nat)
    requires Sign(a) && Sign(b)
    ensures dist == Ones(Diff(a, b), SIGLEN)
  {
    dist := 0;
    for i := 0 to SIGLEN
      invariant dist == Ones(Diff(a, b), i)
    {
      dist := dist + NumberOfOnes(a[i] ^ b[i]);
    }
  }
}
