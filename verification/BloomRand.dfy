/** The bloom index's own random generator: x := 16807 * x mod (2^31 - 1) in 32-bit arithmetic. */
module BloomRand {

  const P: int := 0x7fff_ffff
  const INT_MIN: int := -0x8000_0000
  const INT_MAX: int := 0x7fff_ffff

  predicate Int32(x: int) {
    INT_MIN <= x <= INT_MAX
  }

  function ToInt32(x: int): int {
    (x + 0x8000_0000) % 0x1_0000_0000 - 0x8000_0000
  }

  // ----- division as C does it -----

  function TDiv(x: int, d: int): int
    requires d > 0
  {
    if x >= 0 then x / d else -((-x) / d)
  }

  function TMod(x: int, d: int): int
    requires d > 0
  {
    x - TDiv(x, d) * d
  }

  // ----- one draw -----

  /** The generator's next state: a 32-bit quotient and remainder instead of a product of 46 bits. */
  function NextState(next: int): int {
    var hi, lo := TDiv(next, 127773), TMod(next, 127773);
    var x := 16807 * lo - 2836 * hi;
    if x < 0 then x + 0x7fff_ffff else x
  }

  /** No intermediate value leaves 32 bits, from any state. */
  lemma DrawFits(next: int)
    requires Int32(next)
    ensures var hi, lo := TDiv(next, 127773), TMod(next, 127773);
      && Int32(hi) && Int32(lo) && Int32(16807 * lo) && Int32(2836 * hi) && Int32(16807 * lo - 2836 * hi)
      && Int32(NextState(next)) && Int32(NextState(next) - 1)
  {
  }

  /** Where the quotient and the remainder come from: P == 16807 * 127773 + 2836. */
  lemma Congruent(next: int) returns (k: int)
    ensures NextState(next) == 16807 * next - k * P
  {
    var hi := TDiv(next, 127773);
    assert 16807 * TMod(next, 127773) == 16807 * next - 16807 * 127773 * hi;
    k := if 16807 * TMod(next, 127773) - 2836 * hi < 0 then hi - 1 else hi;
  }

  lemma ModUnique(x: int, k: int, r: int)
    requires x == r + k * P && 0 <= r < P
    ensures x % P == r
  {
    assert x / P == k;
  }

  /** One draw multiplies by 16807 modulo P, from every state that a seed can lead to. */
  lemma DrawIsProduct(next: int)
    requires -P < next < P
    ensures NextState(next) == (16807 * next) % P && 0 <= NextState(next) < P
  {
    var hi, lo := TDiv(next, 127773), TMod(next, 127773);
    assert -16807 <= hi <= 16807 && -127773 < lo < 127773;
    if next >= 0 {
      assert 0 <= lo && 0 <= hi;
    } else {
      assert lo <= 0 && hi <= 0;
    }
    var k := Congruent(next);
    ModUnique(16807 * next, k, NextState(next));
  }

  /** 16807 has an inverse modulo P, so that only multiples of P are drawn to zero. */
  lemma ProductIsZero(x: int)
    ensures (16807 * x) % P == 0 <==> x % P == 0
  {
    assert 16807 * 1407677000 == 11017 * P + 1;
    if (16807 * x) % P == 0 {
      var q := (16807 * x) / P;
      assert 16807 * x == q * P;
      assert x == (1407677000 * q - 11017 * x) * P by {
        assert 1407677000 * (16807 * x) == 1407677000 * (q * P);
        assert 1407677000 * (16807 * x) == (11017 * P + 1) * x;
      }
      ModUnique(x, 1407677000 * q - 11017 * x, 0);
    }
    if x % P == 0 {
      var q := x / P;
      assert x == q * P;
      assert 16807 * x == (16807 * q) * P;
      ModUnique(16807 * x, 16807 * q, 0);
    }
  }

  // ----- seeds -----

  /** The state that a seed leads to; a seed of 2^31 or more is taken as negative. */
  function Seeded(seed: nat): int {
    TMod(ToInt32(seed), 0x7fff_fffe) + 1
  }

  lemma SeededRange(seed: nat)
    requires seed < 0x1_0000_0000
    ensures -P < Seeded(seed) < P
    ensures seed < 0x8000_0000 ==> 1 <= Seeded(seed)
    ensures Seeded(seed) == 0 <==> seed == 0xffff_ffff || seed == 0x8000_0001
  {
  }

  // ----- runs -----

  function StateAfter(seed: nat, k: nat): int {
    if k == 0 then Seeded(seed) else NextState(StateAfter(seed, k - 1))
  }

  function Pow(b: int, k: nat): int {
    if k == 0 then 1 else b * Pow(b, k - 1)
  }

  lemma ModProduct(y: int)
    ensures (16807 * (y % P)) % P == (16807 * y) % P
  {
    var q, r := y / P, (16807 * y) % P;
    var k := (16807 * y) / P;
    assert y == y % P + q * P;
    assert 16807 * (y % P) == r + (k - 16807 * q) * P;
    ModUnique(16807 * (y % P), k - 16807 * q, r);
  }

  /** The k-th state in closed form. */
  lemma {:induction false} StateIsPower(seed: nat, k: nat)
    requires seed < 0x1_0000_0000 && k > 0
    ensures StateAfter(seed, k) == (Pow(16807, k) * Seeded(seed)) % P
  {
    SeededRange(seed);
    if k == 1 {
      DrawIsProduct(Seeded(seed));
      assert Pow(16807, 1) == 16807 * Pow(16807, 0);
    } else {
      StateIsPower(seed, k - 1);
      var y := Pow(16807, k - 1) * Seeded(seed);
      DrawIsProduct(y % P);
      ModProduct(y);
      PowStep(k, Seeded(seed));
    }
  }

  lemma PowStep(k: nat, s: int)
    requires k > 0
    ensures 16807 * (Pow(16807, k - 1) * s) == Pow(16807, k) * s
  {
  }

  lemma {:induction false} StateRange(seed: nat, k: nat)
    requires seed < 0x1_0000_0000 && k > 0
    ensures if Seeded(seed) == 0 then StateAfter(seed, k) == 0 else 1 <= StateAfter(seed, k) < P
  {
    SeededRange(seed);
    if k > 1 { StateRange(seed, k - 1); }
    var before := StateAfter(seed, k - 1);
    DrawIsProduct(before);
    ProductIsZero(before);
    NotMultiple(before);
  }

  lemma NotMultiple(x: int)
    requires -P < x < P
    ensures x % P == 0 <==> x == 0
  {
  }

  /** The generator never gets stuck at zero, exactly for all seeds but two. */
  lemma NeverZeroExactly(seed: nat)
    requires seed < 0x1_0000_0000
    ensures (forall k: nat :: k > 0 ==> 1 <= StateAfter(seed, k) < P) <==> seed != 0xffff_ffff && seed != 0x8000_0001
  {
    SeededRange(seed);
    forall k: nat | k > 0
      ensures if Seeded(seed) == 0 then StateAfter(seed, k) == 0 else 1 <= StateAfter(seed, k) < P
    {
      StateRange(seed, k);
    }
    assert StateAfter(seed, 1) >= 0;
  }

  /** The bit that the k-th draw picks out of m. */
  function BitIndex(seed: nat, k: nat, m: int): int
    requires m > 0
  {
    TMod(StateAfter(seed, k) - 1, m)
  }

  /** Every bit lies inside a signature of m bits, exactly for all seeds but two. */
  lemma IndexInsideExactly(seed: nat, m: int)
    requires seed < 0x1_0000_0000 && m > 1
    ensures (forall k: nat :: k > 0 ==> 0 <= BitIndex(seed, k, m) < m) <==> seed != 0xffff_ffff && seed != 0x8000_0001
  {
    SeededRange(seed);
    forall k: nat | k > 0
      ensures if Seeded(seed) == 0 then BitIndex(seed, k, m) == -1 else 0 <= BitIndex(seed, k, m) < m
    {
      StateRange(seed, k);
      TModRange(StateAfter(seed, k) - 1, m);
    }
    assert BitIndex(seed, 1, m) >= -1;
  }

  lemma TModRange(x: int, m: int)
    requires m > 1 && x >= -1
    ensures if x == -1 then TMod(x, m) == -1 else 0 <= TMod(x, m) < m
  {
    if x >= 0 {
      assert TMod(x, m) == x % m;
    } else {
      assert 1 / m == 0;
    }
  }

  /** The static variable and the two functions that change it. */
  class Generator {
    var next: int

    constructor ()
      ensures next == 0
    {
      next := 0;
    }

    method MyRand() returns (r: int)
      requires Int32(next)
      modifies this
      ensures next == NextState(old(next)) && r == next - 1 && Int32(next) && Int32(r)
    {
      DrawFits(next);
      var hi := TDiv(next, 127773);
      var lo := TMod(next, 127773);
      var x := 16807 * lo - 2836 * hi;
      if x < 0 { x := x + 0x7fff_ffff; }
      next := x;
      r := x - 1;
    }

    method MySrand(seed: nat)
      requires seed < 0x1_0000_0000
      modifies this
      ensures next == Seeded(seed) && Int32(next)
    {
      SeededRange(seed);
      next := ToInt32(seed);
      next := TMod(next, 0x7fff_fffe) + 1;
    }
  }
}
