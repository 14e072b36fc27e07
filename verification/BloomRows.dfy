/** Index tuples of rows, search signatures of scan keys, and the test between them. */
module BloomRows {
  import opened BloomRand
  import opened BloomSign

  datatype Datum = Null | Val(v: int)

  datatype Tuple = Tuple(tid: int, sign: Sign)

  datatype ScanKey = ScanKey(attno: nat, arg: Datum)

  /** A condition column = value; a row holds at most so many columns. */
  predicate Row(values: seq<Datum>) {
    |values| <= INDEX_MAX_KEYS
  }

  /** The bits of one column. */
  ghost predicate ColumnSets(opts: Options, hash: (nat, int) -> Hash, attno: nat, d: Datum, b: nat)
    requires Sound(opts) && attno < INDEX_MAX_KEYS
  {
    d.Val? && Sets(opts, attno, hash(attno, d.v), opts.bits[attno], b)
  }

  predicate ColumnSignable(opts: Options, hash: (nat, int) -> Hash, attno: nat, d: Datum)
    requires Sound(opts) && attno < INDEX_MAX_KEYS
  {
    d.Val? ==> Signable(opts, attno, hash(attno, d.v))
  }

  /** A bit of one of the first n columns. */
  ghost predicate RowSets(opts: Options, hash: (nat, int) -> Hash, values: seq<Datum>, n: nat, b: nat)
    requires Sound(opts) && Row(values) && n <= |values|
  {
    exists i: nat :: i < n && ColumnSets(opts, hash, i, values[i], b)
  }

  /** A signature with exactly the bits of the columns that are not null. */
  ghost predicate SignsRow(opts: Options, hash: (nat, int) -> Hash, values: seq<Datum>, sign: Sign)
    requires Sound(opts) && Row(values)
  {
    |sign| == opts.length && Words(sign) && forall b: nat ::
      b < 16 * opts.length ==> (Bit(sign, b) <==> RowSets(opts, hash, values, |values|, b))
  }

  /** Undefined: a column's value leads the generator to zero. */
  datatype Formed = Formed(t: Tuple) | Undefined

  method BloomFormTuple(gen: Generator, opts: Options, hash: (nat, int) -> Hash, tid: int, values: seq<Datum>)
    returns (r: Formed)
    requires Sound(opts) && Row(values)
    modifies gen
    ensures r.Formed? <==> forall i: nat :: i < |values| ==> ColumnSignable(opts, hash, i, values[i])
    ensures r.Formed? ==> r.t.tid == tid && SignsRow(opts, hash, values, r.t.sign)
  {
    var sign := NoBits(opts);
    for i := 0 to |values|
      invariant forall k: nat :: k < i ==> ColumnSignable(opts, hash, k, values[k])
      invariant RowSigned(opts, hash, values, i, sign[..])
    {
      var ok := SignColumn(gen, opts, hash, values, i, sign);
      if !ok { return Undefined; }
    }
    r := Formed(Tuple(tid, sign[..]));
  }

  /** The bits of the first n columns. */
  ghost predicate RowSigned(opts: Options, hash: (nat, int) -> Hash, values: seq<Datum>, n: nat, sign: Sign)
    requires Sound(opts) && Row(values) && n <= |values|
  {
    |sign| == opts.length && Words(sign) && forall b: nat ::
      b < 16 * opts.length ==> (Bit(sign, b) <==> RowSets(opts, hash, values, n, b))
  }

  /** A null column sets no bit. */
  method SignColumn(gen: Generator, opts: Options, hash: (nat, int) -> Hash, values: seq<Datum>, i: nat,
                    sign: array<Word>)
    returns (ok: bool)
    requires Sound(opts) && Row(values) && i < |values| && RowSigned(opts, hash, values, i, sign[..])
    modifies gen, sign
    ensures ok <==> ColumnSignable(opts, hash, i, values[i])
    ensures ok ==> RowSigned(opts, hash, values, i + 1, sign[..])
  {
    ok := true;
    if values[i].Val? { ok := SignValue(gen, opts, sign, hash(i, values[i].v), i); }
    forall b: nat | b < 16 * opts.length
      ensures RowSets(opts, hash, values, i + 1, b) <==>
        RowSets(opts, hash, values, i, b) || ColumnSets(opts, hash, i, values[i], b)
    {
      RowSetsMore(opts, hash, values, i, b);
    }
  }

  lemma RowSetsMore(opts: Options, hash: (nat, int) -> Hash, values: seq<Datum>, i: nat, b: nat)
    requires Sound(opts) && Row(values) && i < |values|
    ensures RowSets(opts, hash, values, i + 1, b) <==>
      RowSets(opts, hash, values, i, b) || ColumnSets(opts, hash, i, values[i], b)
  {
    if RowSets(opts, hash, values, i + 1, b) {
      var k: nat :| k < i + 1 && ColumnSets(opts, hash, k, values[k], b);
      assert k < i ==> RowSets(opts, hash, values, i, b);
    }
    if RowSets(opts, hash, values, i, b) {
      var k: nat :| k < i && ColumnSets(opts, hash, k, values[k], b);
      assert RowSets(opts, hash, values, i + 1, b);
    }
    assert ColumnSets(opts, hash, i, values[i], b) ==> RowSets(opts, hash, values, i + 1, b);
  }

  // ----- search signatures -----

  predicate Keys(keys: seq<ScanKey>) {
    forall i :: 0 <= i < |keys| ==> keys[i].attno < INDEX_MAX_KEYS
  }

  ghost predicate KeySets(opts: Options, hash: (nat, int) -> Hash, keys: seq<ScanKey>, n: nat, b: nat)
    requires Sound(opts) && Keys(keys) && n <= |keys|
  {
    exists i: nat :: i < n && ColumnSets(opts, hash, keys[i].attno, keys[i].arg, b)
  }

  ghost predicate SignsKeys(opts: Options, hash: (nat, int) -> Hash, keys: seq<ScanKey>, sign: Sign)
    requires Sound(opts) && Keys(keys)
  {
    |sign| == opts.length && Words(sign) && forall b: nat ::
      b < 16 * opts.length ==> (Bit(sign, b) <==> KeySets(opts, hash, keys, |keys|, b))
  }

  datatype Search = Nothing | For(sign: Sign) | Unsearchable

  /** A key that stops the loop: it is null, or its value leads the generator to zero. */
  predicate Stops(opts: Options, hash: (nat, int) -> Hash, key: ScanKey)
    requires Sound(opts) && key.attno < INDEX_MAX_KEYS
  {
    key.arg.Null? || !ColumnSignable(opts, hash, key.attno, key.arg)
  }

  /** The first key that stops the loop. */
  ghost predicate FirstStop(opts: Options, hash: (nat, int) -> Hash, keys: seq<ScanKey>, i: int)
    requires Sound(opts) && Keys(keys)
  {
    0 <= i < |keys| && Stops(opts, hash, keys[i]) && forall k :: 0 <= k < i ==> !Stops(opts, hash, keys[k])
  }

  /** A null key can match nothing. */
  method ScanSignature(gen: Generator, opts: Options, hash: (nat, int) -> Hash, keys: seq<ScanKey>) returns (s: Search)
    requires Sound(opts) && Keys(keys)
    modifies gen
    ensures s.For? <==> forall i :: 0 <= i < |keys| ==> !Stops(opts, hash, keys[i])
    ensures s.For? ==> SignsKeys(opts, hash, keys, s.sign)
    ensures !s.For? ==> exists i :: FirstStop(opts, hash, keys, i) && (s.Nothing? <==> keys[i].arg.Null?)
  {
    var sign := NoBits(opts);
    for i := 0 to |keys|
      invariant forall k :: 0 <= k < i ==> !Stops(opts, hash, keys[k])
      invariant KeysSigned(opts, hash, keys, i, sign[..])
    {
      if keys[i].arg.Null? {
        assert FirstStop(opts, hash, keys, i);
        return Nothing;
      }
      var ok := SignKey(gen, opts, hash, keys, i, sign);
      if !ok {
        assert FirstStop(opts, hash, keys, i);
        return Unsearchable;
      }
    }
    s := For(sign[..]);
  }

  method NoBits(opts: Options) returns (sign: array<Word>)
    ensures fresh(sign) && sign.Length == opts.length && Words(sign[..])
    ensures forall b: nat :: b < 16 * opts.length ==> !Bit(sign[..], b)
  {
    sign := new Word[opts.length](i => ZERO);
  }

  /** The bits of the first n keys. */
  ghost predicate KeysSigned(opts: Options, hash: (nat, int) -> Hash, keys: seq<ScanKey>, n: nat, sign: Sign)
    requires Sound(opts) && Keys(keys) && n <= |keys|
  {
    |sign| == opts.length && Words(sign) && forall b: nat ::
      b < 16 * opts.length ==> (Bit(sign, b) <==> KeySets(opts, hash, keys, n, b))
  }

  method SignKey(gen: Generator, opts: Options, hash: (nat, int) -> Hash, keys: seq<ScanKey>, i: nat, sign: array<Word>)
    returns (ok: bool)
    requires Sound(opts) && Keys(keys) && i < |keys| && keys[i].arg.Val?
    requires KeysSigned(opts, hash, keys, i, sign[..])
    modifies gen, sign
    ensures ok <==> ColumnSignable(opts, hash, keys[i].attno, keys[i].arg)
    ensures ok ==> KeysSigned(opts, hash, keys, i + 1, sign[..])
  {
    ok := SignValue(gen, opts, sign, hash(keys[i].attno, keys[i].arg.v), keys[i].attno);
    forall b: nat | b < 16 * opts.length
      ensures KeySets(opts, hash, keys, i + 1, b) <==>
        KeySets(opts, hash, keys, i, b) || ColumnSets(opts, hash, keys[i].attno, keys[i].arg, b)
    {
      KeySetsMore(opts, hash, keys, i, b);
    }
  }

  lemma KeySetsMore(opts: Options, hash: (nat, int) -> Hash, keys: seq<ScanKey>, i: nat, b: nat)
    requires Sound(opts) && Keys(keys) && i < |keys|
    ensures KeySets(opts, hash, keys, i + 1, b) <==>
      KeySets(opts, hash, keys, i, b) || ColumnSets(opts, hash, keys[i].attno, keys[i].arg, b)
  {
    if KeySets(opts, hash, keys, i + 1, b) {
      var k: nat :| k < i + 1 && ColumnSets(opts, hash, keys[k].attno, keys[k].arg, b);
      assert k < i ==> KeySets(opts, hash, keys, i, b);
    }
    if KeySets(opts, hash, keys, i, b) {
      var k: nat :| k < i && ColumnSets(opts, hash, keys[k].attno, keys[k].arg, b);
      assert KeySets(opts, hash, keys, i + 1, b);
    }
    assert ColumnSets(opts, hash, keys[i].attno, keys[i].arg, b) ==> KeySets(opts, hash, keys, i + 1, b);
  }

  // ----- the test -----

  ghost predicate Passes(tuple: Sign, sign: Sign) {
    && |tuple| == |sign| && Words(tuple) && Words(sign)
    && forall b: nat :: b < 16 * |sign| && Bit(sign, b) ==> Bit(tuple, b)
  }

  lemma WordFails(tuple: Sign, sign: Sign, i: nat)
    requires |tuple| == |sign| && Words(tuple) && Words(sign) && i < |sign| && AndWord(tuple[i], sign[i]) != sign[i]
    ensures !Passes(tuple, sign)
  {
    InsideWord(tuple[i], sign[i]);
    var j :| 0 <= j < SIGNWORDBITS && sign[i][j] && !tuple[i][j];
    var b := 16 * i + j;
    assert b / 16 == i && b % 16 == j;
    assert Bit(sign, b) && !Bit(tuple, b);
  }

  /** Word by word. */
  method CheckSignature(tuple: Sign, sign: Sign) returns (res: bool)
    requires |tuple| == |sign| && Words(tuple) && Words(sign)
    ensures res <==> Passes(tuple, sign)
  {
    for i := 0 to |sign|
      invariant forall b: nat :: b < 16 * i && Bit(sign, b) ==> Bit(tuple, b)
    {
      if AndWord(tuple[i], sign[i]) != sign[i] {
        WordFails(tuple, sign, i);
        return false;
      }
      InsideWord(tuple[i], sign[i]);
      assert forall b: nat :: 16 * i <= b < 16 * i + 16 ==> b / 16 == i;
    }
    res := true;
  }

  /** The row has the value of every key. */
  predicate Satisfies(values: seq<Datum>, keys: seq<ScanKey>) {
    forall i :: 0 <= i < |keys| ==> keys[i].arg.Val? && keys[i].attno < |values| && values[keys[i].attno] == keys[i].arg
  }

  /** No row that a scan asks for fails the test. */
  lemma NoFalseNegative(opts: Options, hash: (nat, int) -> Hash, values: seq<Datum>, keys: seq<ScanKey>, tuple: Sign,
                        sign: Sign)
    requires Sound(opts) && Row(values) && Keys(keys) && Satisfies(values, keys)
    requires SignsRow(opts, hash, values, tuple) && SignsKeys(opts, hash, keys, sign)
    ensures Passes(tuple, sign)
  {
    forall b: nat | b < 16 * opts.length && Bit(sign, b) ensures Bit(tuple, b) {
      var k: nat :| k < |keys| && ColumnSets(opts, hash, keys[k].attno, keys[k].arg, b);
      var at := keys[k].attno;
      assert values[at] == keys[k].arg;
      assert ColumnSets(opts, hash, at, values[at], b);
      assert RowSets(opts, hash, values, |values|, b);
    }
  }
}
