/** Byte strings in the order of byteacmp: bytes first, then length. */
module ByteOrder {

  type Byte = b: int | 0 <= b < 256

  type Bytes = seq<Byte>

  function Cmp(a: Bytes, b: Bytes): int {
    if a == [] && b == [] then 0
    else if a == [] then -1
    else if b == [] then 1
    else if a[0] != b[0] then a[0] - b[0]
    else Cmp(a[1..], b[1..])
  }

  predicate Leq(a: Bytes, b: Bytes) {
    Cmp(a, b) <= 0
  }

  /** The first k bytes, or all of them. */
  function Take(s: Bytes, k: nat): (t: Bytes)
    ensures t <= s && |t| == if k < |s| then k else |s|
  {
    if k < |s| then s[..k] else s
  }

  /** The length of the longest common prefix. */
  function CpLen(a: Bytes, b: Bytes): (p: nat)
    ensures p <= |a| && p <= |b|
  {
    if a == [] || b == [] || a[0] != b[0] then 0 else 1 + CpLen(a[1..], b[1..])
  }

  lemma {:induction false} CmpFlip(a: Bytes, b: Bytes)
    ensures Cmp(a, b) == -Cmp(b, a)
    ensures Cmp(a, b) == 0 <==> a == b
  {
    if a != [] && b != [] && a[0] == b[0] {
      CmpFlip(a[1..], b[1..]);
      assert a == [a[0]] + a[1..] && b == [b[0]] + b[1..];
    }
  }

  lemma {:induction false} LeqTransitive(a: Bytes, b: Bytes, c: Bytes)
    requires Leq(a, b) && Leq(b, c)
    ensures Leq(a, c)
    ensures Cmp(a, b) < 0 || Cmp(b, c) < 0 ==> Cmp(a, c) < 0
  {
    if a != [] && b != [] && c != [] && a[0] == b[0] == c[0] { LeqTransitive(a[1..], b[1..], c[1..]); }
  }

  lemma {:induction false} PrefixLeq(p: Bytes, x: Bytes)
    requires p <= x
    ensures Leq(p, x)
  {
    if p != [] { assert p[0] == x[0]; PrefixLeq(p[1..], x[1..]); }
  }

  /** Between a prefix of u and u there are only extensions of the prefix. */
  lemma {:induction false} Sandwich(p: Bytes, x: Bytes, u: Bytes)
    requires p <= u && Leq(p, x) && Leq(x, u)
    ensures p <= x
  {
    if p != [] {
      assert p[0] == u[0];
      assert x != [] && x[0] == p[0];
      assert p[1..] <= u[1..];
      Sandwich(p[1..], x[1..], u[1..]);
      assert p == [p[0]] + p[1..] && x == [x[0]] + x[1..];
    }
  }

  /** Strings that part before either ends stay ordered however they are extended. */
  lemma {:induction false} Diverge(a: Bytes, b: Bytes, a': Bytes, b': Bytes)
    requires Leq(a, b) && !(a <= b) && !(b <= a)
    requires a <= a' && b <= b'
    ensures Cmp(a', b') < 0
  {
    assert a != [] && b != [];
    assert a[0] == a'[0] && b[0] == b'[0];
    if a[0] == b[0] {
      assert a == [a[0]] + a[1..] && b == [b[0]] + b[1..];
      Diverge(a[1..], b[1..], a'[1..], b'[1..]);
    }
  }

  lemma {:induction false} TakeMonotone(a: Bytes, b: Bytes, k: nat)
    requires Leq(a, b)
    ensures Leq(Take(a, k), Take(b, k))
  {
    if a != [] && b != [] && k > 0 && a[0] == b[0] {
      TakeMonotone(a[1..], b[1..], k - 1);
      assert Take(a, k)[1..] == Take(a[1..], k - 1);
      assert Take(b, k)[1..] == Take(b[1..], k - 1);
    }
  }

  lemma {:induction false} CpLenMeans(a: Bytes, b: Bytes)
    ensures a[..CpLen(a, b)] == b[..CpLen(a, b)]
    ensures CpLen(a, b) < |a| && CpLen(a, b) < |b| ==> a[CpLen(a, b)] != b[CpLen(a, b)]
  {
    if !(a == [] || b == [] || a[0] != b[0]) {
      CpLenMeans(a[1..], b[1..]);
      var p := CpLen(a[1..], b[1..]);
      assert a[..p + 1] == [a[0]] + a[1..][..p];
      assert b[..p + 1] == [b[0]] + b[1..][..p];
    }
  }

  lemma {:induction false} CpLenLeast(a: Bytes, b: Bytes, k: nat)
    requires k <= |a| && k <= |b| && a[..k] == b[..k]
    ensures k <= CpLen(a, b)
  {
    if k > 0 {
      assert a[0] == a[..k][0] == b[..k][0] == b[0];
      assert a[1..][..k - 1] == a[..k][1..];
      assert b[1..][..k - 1] == b[..k][1..];
      CpLenLeast(a[1..], b[1..], k - 1);
    }
  }

  /** Whatever lies between l and u starts with their common prefix. */
  lemma {:induction false} BetweenShares(l: Bytes, y: Bytes, u: Bytes)
    requires Leq(l, y) && Leq(y, u)
    ensures CpLen(l, u) <= |y| && y[..CpLen(l, u)] == l[..CpLen(l, u)]
  {
    if CpLen(l, u) > 0 {
      assert y != [] && y[0] == l[0];
      BetweenShares(l[1..], y[1..], u[1..]);
      var p := CpLen(l[1..], u[1..]);
      assert y[..p + 1] == [y[0]] + y[1..][..p];
      assert l[..p + 1] == [l[0]] + l[1..][..p];
    }
  }

  /** Cutting both strings at or beyond their common prefix keeps its length. */
  lemma CpLenTake(a: Bytes, b: Bytes, k: nat)
    requires CpLen(a, b) < k
    ensures CpLen(Take(a, k), Take(b, k)) == CpLen(a, b)
  {
    var p := CpLen(a, b);
    CpLenMeans(a, b);
    assert Take(a, k)[..p] == a[..p] && Take(b, k)[..p] == b[..p];
    CpLenLeast(Take(a, k), Take(b, k), p);
    CpLenMeans(Take(a, k), Take(b, k));
    var p' := CpLen(Take(a, k), Take(b, k));
    assert Take(a, k)[..p'] == a[..p'] && Take(b, k)[..p'] == b[..p'];
    CpLenLeast(a, b, p');
  }
}
