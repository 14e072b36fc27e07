/** Signatures of rows and of scan keys, and the test of one against the other. */
module BloomSign {
  import opened BloomRand

  const SIGNWORDBITS: nat := 16
  const MAX_WORDS: nat := 256
  const INDEX_MAX_KEYS: nat := 32

  /** Signature length in words, and bits per column. */
  datatype Options = Options(length: nat, bits: seq<nat>)

  predicate Sound(opts: Options) {
    1 <= opts.length <= MAX_WORDS && |opts.bits| == INDEX_MAX_KEYS
  }

  // ----- words -----

  /** An unsigned 16-bit word, lowest bit first. */
  type Word = seq<bool>

  type Sign = seq<Word>

  const ZERO: Word := seq(SIGNWORDBITS, i => false)

  predicate Words(s: Sign) {
    forall i :: 0 <= i < |s| ==> |s[i]| == SIGNWORDBITS
  }

  function AndWord(a: Word, b: Word): (r: Word)
    requires |a| == |b| == SIGNWORDBITS
    ensures |r| == SIGNWORDBITS
  {
    seq(SIGNWORDBITS, i requires 0 <= i < SIGNWORDBITS => a[i] && b[i])
  }

  predicate Bit(s: Sign, b: nat)
    requires Words(s) && b < 16 * |s|
  {
    s[b / 16][b % 16]
  }

  /** A word holds all bits of another. */
  lemma InsideWord(t: Word, s: Word)
    requires |t| == |s| == SIGNWORDBITS
    ensures AndWord(t, s) == s <==> forall j :: 0 <= j < SIGNWORDBITS && s[j] ==> t[j]
  {
    if AndWord(t, s) == s {
      forall j | 0 <= j < SIGNWORDBITS && s[j] ensures t[j] { assert AndWord(t, s)[j]; }
    }
  }

  method SetBit(sign: array<Word>, at: nat)
    requires at < 16 * sign.Length && Words(sign[..])
    modifies sign
    ensures Words(sign[..])
    ensures forall b: nat :: b < 16 * sign.Length ==> (Bit(sign[..], b) <==> b == at || old(Bit(sign[..], b)))
  {
    ghost var was := sign[..];
    var i, j := at / 16, at % 16;
    sign[i] := sign[i][j := true];
    forall b: nat | b < 16 * sign.Length ensures Bit(sign[..], b) <==> b == at || Bit(was, b) {
      assert b == at <==> b / 16 == i && b % 16 == j;
    }
  }

  // ----- exclusive or -----

  /** The hash of a value: a number of 32 bits. */
  type Hash = h: int | 0 <= h < 0x1_0000_0000

  function Pow2(n: nat): nat {
    if n == 0 then 1 else 2 * Pow2(n - 1)
  }

  function Xor(a: nat, b: nat): nat {
    if a == 0 && b == 0 then 0 else 2 * Xor(a / 2, b / 2) + (if a % 2 == b % 2 then 0 else 1)
  }

  lemma {:induction false} XorRange(a: nat, b: nat, n: nat)
    requires a < Pow2(n) && b < Pow2(n)
    ensures Xor(a, b) < Pow2(n)
  {
    if n > 0 { XorRange(a / 2, b / 2, n - 1); }
  }

  lemma {:induction false} XorDiffers(a: nat, b: nat, c: nat)
    ensures Xor(a, b) == Xor(a, c) <==> b == c
    ensures Xor(b, a) == Xor(c, a) <==> b == c
    decreases a + b + c
  {
    if a + b + c > 0 { XorDiffers(a / 2, b / 2, c / 2); }
  }

  lemma HashXor(h: Hash, x: nat)
    requires x < 0x1_0000_0000
    ensures Xor(h, x) < 0x1_0000_0000
  {
    assert Pow2(8) == 0x100 && Pow2(16) == 0x1_0000 && Pow2(24) == 0x100_0000 && Pow2(32) == 0x1_0000_0000;
    XorRange(h, x, 32);
  }

  // ----- one value -----

  /** The seed for a column's value: the column's own first draw, mixed with the hash of the value. */
  function SignSeed(attno: nat, h: Hash): (seed: nat)
    requires attno < INDEX_MAX_KEYS
    ensures seed < 0x1_0000_0000
  {
    DrawIsProduct(Seeded(attno));
    FirstDraw(attno);
    HashXor(h, NextState(Seeded(attno)) - 1);
    Xor(h, NextState(Seeded(attno)) - 1)
  }

  lemma FirstDraw(attno: nat)
    requires attno < INDEX_MAX_KEYS
    ensures 1 <= NextState(Seeded(attno)) < P
  {
    SeededRange(attno);
    DrawIsProduct(Seeded(attno));
    ProductIsZero(Seeded(attno));
    NotMultiple(Seeded(attno));
  }

  /** The first draw for a column in closed form. */
  lemma FirstDrawIs(attno: nat)
    requires attno < INDEX_MAX_KEYS
    ensures NextState(Seeded(attno)) == 16807 * (attno + 1)
  {
    assert Seeded(attno) == attno + 1;
    DrawIsProduct(attno + 1);
    ModUnique(16807 * (attno + 1), 0, 16807 * (attno + 1));
  }

  /** The bits of a value depend on its column, and within a column on its hash. */
  lemma SeedsDiffer(attno: nat, attno': nat, h: Hash, h': Hash)
    requires attno < INDEX_MAX_KEYS && attno' < INDEX_MAX_KEYS
    ensures SignSeed(attno, h) == SignSeed(attno', h) <==> attno == attno'
    ensures SignSeed(attno, h) == SignSeed(attno, h') <==> h == h'
  {
    FirstDrawIs(attno);
    FirstDrawIs(attno');
    XorDiffers(h, 16807 * (attno + 1) - 1, 16807 * (attno' + 1) - 1);
    XorDiffers(16807 * (attno + 1) - 1, h, h');
  }

  /** The generator does not start from zero; otherwise no bit lies inside the signature. */
  predicate Drawable(attno: nat, h: Hash)
    requires attno < INDEX_MAX_KEYS
  {
    SignSeed(attno, h) != 0xffff_ffff && SignSeed(attno, h) != 0x8000_0001
  }

  /** The k-th bit for a value. */
  function BitOf(opts: Options, attno: nat, h: Hash, k: nat): int
    requires Sound(opts) && attno < INDEX_MAX_KEYS
  {
    BitIndex(SignSeed(attno, h), k, opts.length * SIGNWORDBITS)
  }

  /** Inside the signature for a generator that draws, minus one for one that is stuck. */
  lemma BitOfInside(opts: Options, attno: nat, h: Hash, k: nat)
    requires Sound(opts) && attno < INDEX_MAX_KEYS && k > 0
    ensures if Drawable(attno, h) then 0 <= BitOf(opts, attno, h, k) < 16 * opts.length
      else BitOf(opts, attno, h, k) == -1
  {
    var seed := SignSeed(attno, h);
    SeededRange(seed);
    StateRange(seed, k);
    TModRange(StateAfter(seed, k) - 1, opts.length * SIGNWORDBITS);
  }

  /** One of the first n bits for a value. */
  ghost predicate Sets(opts: Options, attno: nat, h: Hash, n: nat, b: nat)
    requires Sound(opts) && attno < INDEX_MAX_KEYS
  {
    exists k: nat :: 1 <= k <= n && BitOf(opts, attno, h, k) == b
  }

  /** The bits of a value can be set: the generator draws, or there is nothing to draw. */
  predicate Signable(opts: Options, attno: nat, h: Hash)
    requires Sound(opts) && attno < INDEX_MAX_KEYS
  {
    Drawable(attno, h) || opts.bits[attno] == 0
  }

  /** Not ok: a bit with a negative number was to be set, which C leaves undefined. */
  method SignValue(gen: Generator, opts: Options, sign: array<Word>, h: Hash, attno: nat) returns (ok: bool)
    requires Sound(opts) && attno < INDEX_MAX_KEYS && sign.Length == opts.length && Words(sign[..])
    modifies gen, sign
    ensures ok <==> Signable(opts, attno, h)
    ensures Words(sign[..])
    ensures ok ==> forall b: nat :: b < 16 * sign.Length ==>
      (Bit(sign[..], b) <==> old(Bit(sign[..], b)) || Sets(opts, attno, h, opts.bits[attno], b))
  {
    StartDraws(gen, h, attno);
    ghost var was := sign[..];
    for j := 0 to opts.bits[attno]
      invariant j > 0 ==> Drawable(attno, h)
      invariant gen.next == StateAfter(SignSeed(attno, h), j) && Int32(gen.next) && Words(sign[..])
      invariant forall b: nat ::
        b < 16 * sign.Length ==> (Bit(sign[..], b) <==> Bit(was, b) || Sets(opts, attno, h, j, b))
    {
      var nBit := NextBit(gen, opts, h, attno, j);
      if nBit < 0 { return false; }
      SetBit(sign, nBit);
      forall b: nat
        ensures Sets(opts, attno, h, j + 1, b) <==> Sets(opts, attno, h, j, b) || b == BitOf(opts, attno, h, j + 1)
      {
        SetsMore(opts, attno, h, j, b);
      }
    }
    ok := true;
  }

  /** The seed for the value. */
  method StartDraws(gen: Generator, h: Hash, attno: nat)
    requires attno < INDEX_MAX_KEYS
    modifies gen
    ensures gen.next == StateAfter(SignSeed(attno, h), 0) && Int32(gen.next)
  {
    FirstDraw(attno);
    gen.MySrand(attno);
    var r := gen.MyRand();
    HashXor(h, r);
    gen.MySrand(Xor(h, r));
  }

  /** The next draw picks a bit. */
  method NextBit(gen: Generator, opts: Options, ghost h: Hash, ghost attno: nat, ghost j: nat) returns (nBit: int)
    requires Sound(opts) && attno < INDEX_MAX_KEYS
    requires gen.next == StateAfter(SignSeed(attno, h), j) && Int32(gen.next)
    modifies gen
    ensures gen.next == StateAfter(SignSeed(attno, h), j + 1) && Int32(gen.next)
    ensures nBit == BitOf(opts, attno, h, j + 1) < 16 * opts.length && (nBit >= 0 <==> Drawable(attno, h))
  {
    BitOfInside(opts, attno, h, j + 1);
    var x := gen.MyRand();
    nBit := TMod(x, opts.length * SIGNWORDBITS);
  }

  lemma SetsMore(opts: Options, attno: nat, h: Hash, j: nat, b: nat)
    requires Sound(opts) && attno < INDEX_MAX_KEYS
    ensures Sets(opts, attno, h, j + 1, b) <==> Sets(opts, attno, h, j, b) || b == BitOf(opts, attno, h, j + 1)
  {
    if Sets(opts, attno, h, j + 1, b) {
      var k: nat :| 1 <= k <= j + 1 && BitOf(opts, attno, h, k) == b;
      assert k <= j ==> Sets(opts, attno, h, j, b);
    }
    if Sets(opts, attno, h, j, b) {
      var k: nat :| 1 <= k <= j && BitOf(opts, attno, h, k) == b;
      assert Sets(opts, attno, h, j + 1, b);
    }
    assert BitOf(opts, attno, h, j + 1) == b ==> Sets(opts, attno, h, j + 1, b);
  }
}
