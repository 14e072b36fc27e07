/** Keys of gist__intbig_ops: union, compression, consistency, and searches over them. */
module IntSignTree {
  import opened IntSign
  import opened IntQuery
  import opened IntQueryExec
  import opened IntGist

  /** A flag stands for the signature with all bits set. */
  datatype SignKey = AllTrue | Signed(sign: seq<bv8>)

  predicate Valid(k: SignKey) {
    k.Signed? ==> Sign(k.sign)
  }

  predicate KeyBit(k: SignKey, h: nat)
    requires Valid(k) && h < SIGLENBIT
  {
    k.AllTrue? || Bit(k.sign, h)
  }

  // ----- union and compression -----

  /** Adds one key to base; the answer says that the whole union has all bits. */
  method UnionKey(base: array<bv8>, add: SignKey) returns (all: bool)
    requires base.Length == SIGLEN && Valid(add)
    modifies base
    ensures all == add.AllTrue?
    ensures !all ==> forall h: nat ::
      h < SIGLENBIT ==> (Bit(base[..], h) <==> old(Bit(base[..], h)) || Bit(add.sign, h))
  {
    if add.AllTrue? { return true; }
    all := false;
    OrInto(base, add.sign);
  }

  /** Byte by byte. */
  method OrInto(base: array<bv8>, add: seq<bv8>)
    requires base.Length == SIGLEN && Sign(add)
    modifies base
    ensures base[..] == Or(old(base[..]), add)
    ensures forall h: nat :: h < SIGLENBIT ==> (Bit(base[..], h) <==> old(Bit(base[..], h)) || Bit(add, h))
  {
    ghost var was := base[..];
    for i := 0 to SIGLEN
      invariant forall k :: 0 <= k < i ==> base[k] == was[k] | add[k]
      invariant forall k :: i <= k < SIGLEN ==> base[k] == was[k]
    {
      base[i] := base[i] | add[i];
    }
    assert base[..] == Or(was, add);
    forall h: nat | h < SIGLENBIT ensures Bit(base[..], h) <==> Bit(was, h) || Bit(add, h) { OrBits(was, add, h); }
  }

  function Or(a: seq<bv8>, b: seq<bv8>): (r: seq<bv8>)
    requires Sign(a) && Sign(b)
    ensures Sign(r)
  {
    seq(SIGLEN, i requires 0 <= i < SIGLEN => a[i] | b[i])
  }

  lemma OrBits(a: seq<bv8>, b: seq<bv8>, h: nat)
    requires Sign(a) && Sign(b) && h < SIGLENBIT
    ensures Bit(Or(a, b), h) <==> Bit(a, h) || Bit(b, h)
  {
    OrBit(a[h / 8], b[h / 8], h % 8);
  }

  /** A bit that some entry has. */
  ghost predicate SomeBit(entries: seq<SignKey>, h: nat)
    requires h < SIGLENBIT && forall i :: 0 <= i < |entries| ==> Valid(entries[i])
  {
    exists i :: 0 <= i < |entries| && KeyBit(entries[i], h)
  }

  method GIntBigUnion(entries: seq<SignKey>) returns (res: SignKey)
    requires forall i :: 0 <= i < |entries| ==> Valid(entries[i])
    ensures Valid(res) && (res.AllTrue? <==> AllTrue in entries)
    ensures forall h: nat :: h < SIGLENBIT ==> (KeyBit(res, h) <==> SomeBit(entries, h))
  {
    var base := new bv8[SIGLEN](i => 0);
    forall h: nat | h < SIGLENBIT ensures !Bit(base[..], h) { NoBits(h % 8); }
    for i := 0 to |entries|
      invariant forall k :: 0 <= k < i ==> entries[k].Signed?
      invariant forall h: nat :: h < SIGLENBIT ==> (Bit(base[..], h) <==> SomeBit(entries[..i], h))
    {
      var all := UnionKey(base, entries[i]);
      if all { return AllTrue; }
      forall h: nat | h < SIGLENBIT
        ensures SomeBit(entries[..i + 1], h) <==> SomeBit(entries[..i], h) || KeyBit(entries[i], h)
      {
        SomeBitMore(entries, i, h);
      }
    }
    assert entries[..|entries|] == entries;
    res := Signed(base[..]);
  }

  lemma SomeBitMore(entries: seq<SignKey>, i: nat, h: nat)
    requires h < SIGLENBIT && i < |entries| && forall i :: 0 <= i < |entries| ==> Valid(entries[i])
    ensures SomeBit(entries[..i + 1], h) <==> SomeBit(entries[..i], h) || KeyBit(entries[i], h)
  {
    var less, more := entries[..i], entries[..i + 1];
    assert more == less + [entries[i]];
    if KeyBit(entries[i], h) { assert KeyBit(more[i], h); }
    if SomeBit(less, h) {
      var j :| 0 <= j < |less| && KeyBit(less[j], h);
      assert KeyBit(more[j], h);
    }
    if SomeBit(more, h) {
      var j :| 0 <= j < |more| && KeyBit(more[j], h);
      assert j < i ==> KeyBit(less[j], h);
    }
  }

  /** The key of a page in its short form: no bit changes, and the flag stands for every full signature. */
  method GIntBigCompress(key: SignKey) returns (res: SignKey)
    requires Valid(key)
    ensures Valid(res)
    ensures forall h: nat :: h < SIGLENBIT ==> (KeyBit(res, h) <==> KeyBit(key, h))
    ensures res.AllTrue? <==> forall h: nat :: h < SIGLENBIT ==> KeyBit(key, h)
  {
    if key.AllTrue? { return key; }
    for i := 0 to SIGLEN
      invariant forall h: nat :: h < 8 * i ==> Bit(key.sign, h)
    {
      FullByte(key.sign[i]);
      if key.sign[i] != 0xff {
        var j: nat :| j < 8 && !ByteBit(key.sign[i], j);
        var h := 8 * i + j;
        assert h / 8 == i && h % 8 == j;
        assert !KeyBit(key, h);
        return key;
      }
      forall h: nat | 8 * i <= h < 8 * (i + 1) ensures Bit(key.sign, h) { assert h / 8 == i; }
    }
    res := AllTrue;
  }

  // ----- consistency -----

  predicate BitHolding(items: seq<Item>, sign: seq<bv8>, i: int)
    requires Sign(sign)
  {
    0 <= i < |items| && Bit(sign, HashVal(items[i].val))
  }

  /** What the index asks of a key; every answer is rechecked. */
  ghost predicate SignTest(key: SignKey, query: seq<int>, s: Strategy, leaf: bool)
    requires Valid(key) && Askable(s)
  {
    key.AllTrue? ||
    match s
    case Overlap => exists v :: v in query && Bit(key.sign, HashVal(v))
    case Same =>
      if leaf then Signs(key.sign, query) else forall v :: v in query ==> Bit(key.sign, HashVal(v))
    case Contains => forall v :: v in query ==> Bit(key.sign, HashVal(v))
    case ContainedBy =>
      if leaf then forall h: nat :: h < SIGLENBIT && Bit(key.sign, h) ==> Hashed(query, h)
      else exists v :: v in query && Bit(key.sign, HashVal(v))
    case Boolean(items) => Execute(items, |items| - 1, false, i => BitHolding(items, key.sign, i))
    case Other => false
  }

  method IntBigOverlap(sign: seq<bv8>, query: seq<int>) returns (res: bool)
    requires Sign(sign)
    ensures res <==> exists v :: v in query && Bit(sign, HashVal(v))
  {
    for i := 0 to |query|
      invariant forall k :: 0 <= k < i ==> !Bit(sign, HashVal(query[k]))
    {
      if Bit(sign, HashVal(query[i])) {
        assert query[i] in query;
        return true;
      }
    }
    res := false;
  }

  method IntBigContains(sign: seq<bv8>, query: seq<int>) returns (res: bool)
    requires Sign(sign)
    ensures res <==> forall v :: v in query ==> Bit(sign, HashVal(v))
  {
    for i := 0 to |query|
      invariant forall k :: 0 <= k < i ==> Bit(sign, HashVal(query[k]))
    {
      if !Bit(sign, HashVal(query[i])) {
        assert query[i] in query;
        return false;
      }
    }
    res := true;
  }

  /** Equal to the signature of the query. */
  method IntBigSame(sign: seq<bv8>, query: seq<int>) returns (res: bool)
    requires Sign(sign)
    ensures res <==> Signs(sign, query)
  {
    var qp := GenSign(query);
    res := SameSign(sign, qp);
    if Signs(sign, query) { SignsOnce(sign, qp, query, query); }
  }

  /** Inside the signature of the query. */
  method IntBigInside(sign: seq<bv8>, query: seq<int>) returns (res: bool)
    requires Sign(sign)
    ensures res <==> forall h: nat :: h < SIGLENBIT && Bit(sign, h) ==> Hashed(query, h)
  {
    var qp := GenSign(query);
    res := InsideSign(sign, qp);
  }

  method GIntBigConsistent(key: SignKey, query: seq<int>, s: Strategy, leaf: bool) returns (res: bool, recheck: bool)
    requires Valid(key) && Askable(s)
    ensures res <==> SignTest(key, query, s, leaf)
    ensures recheck
  {
    recheck := true;
    if key.AllTrue? { return true, true; }
    match s {
      case Boolean(items) => res := Execute(items, |items| - 1, false, i => BitHolding(items, key.sign, i));
      case Overlap => res := IntBigOverlap(key.sign, query);
      case Same =>
        if leaf { res := IntBigSame(key.sign, query); } else { res := IntBigContains(key.sign, query); }
      case Contains => res := IntBigContains(key.sign, query);
      case ContainedBy =>
        if leaf { res := IntBigInside(key.sign, query); } else { res := IntBigOverlap(key.sign, query); }
      case Other => res := false;
    }
  }

  ghost predicate Covers(key: SignKey, x: seq<int>) {
    Valid(key) && forall v :: v in x ==> KeyBit(key, HashVal(v))
  }

  /** A matching array is never refused at its own entry. */
  lemma MatchPassesLeaf(sign: seq<bv8>, x: seq<int>, query: seq<int>, s: Strategy)
    requires Askable(s) && Signs(sign, x) && Matches(x, query, s)
    ensures SignTest(Signed(sign), query, s, true)
  {
    ElementsSigned(sign, x);
    match s
    case Same =>
      forall h: nat | h < SIGLENBIT ensures Hashed(x, h) <==> Hashed(query, h) {
        SameHashes(x, query, h);
        SameHashes(query, x, h);
      }
    case ContainedBy =>
      forall h: nat | h < SIGLENBIT && Bit(sign, h) ensures Hashed(query, h) { SameHashes(x, query, h); }
    case Boolean(items) =>
      LossyExecute(items, |items| - 1, i => Holding(items, x, i), i => BitHolding(items, sign, i));
    case _ =>
  }

  lemma ElementsSigned(sign: seq<bv8>, x: seq<int>)
    requires Signs(sign, x)
    ensures forall v :: v in x ==> Bit(sign, HashVal(v))
  {
    forall v | v in x ensures Bit(sign, HashVal(v)) {
      var i :| 0 <= i < |x| && x[i] == v;
      assert Hashed(x, HashVal(v));
    }
  }

  lemma SameHashes(x: seq<int>, y: seq<int>, h: nat)
    requires forall v :: v in x ==> v in y
    ensures Hashed(x, h) ==> Hashed(y, h)
  {
    if Hashed(x, h) {
      var i :| 0 <= i < |x| && HashVal(x[i]) == h;
      assert x[i] in y;
      var j :| 0 <= j < |y| && y[j] == x[i];
    }
  }

  /** A match below a page passes the page, except that an empty array may hide from "contained by". */
  lemma MatchPassesPage(key: SignKey, x: seq<int>, query: seq<int>, s: Strategy)
    requires Askable(s) && Covers(key, x) && Matches(x, query, s)
    requires s == ContainedBy ==> x != []
    ensures SignTest(key, query, s, false)
  {
    if key.Signed? {
      match s
      case ContainedBy =>
        var v := x[0];
        assert v in x;
        assert v in query && Bit(key.sign, HashVal(v));
      case Boolean(items) =>
        LossyExecute(items, |items| - 1, i => Holding(items, x, i), i => BitHolding(items, key.sign, i));
      case _ =>
    }
  }

  ghost predicate MayMatchBelow(key: SignKey, query: seq<int>, s: Strategy)
    requires Valid(key) && Askable(s)
  {
    exists x :: Covers(key, x) && (s == ContainedBy ==> x != []) && Matches(x, query, s)
  }

  /** A page is entered exactly if it has the flag or may hold a match. */
  lemma SignTestExactly(key: SignKey, query: seq<int>, s: Strategy)
    requires Valid(key) && !s.Boolean?
    ensures SignTest(key, query, s, false) <==> key.AllTrue? || MayMatchBelow(key, query, s)
  {
    if key.Signed? {
      if SignTest(key, query, s, false) {
        if s == Same || s == Contains {
          assert Covers(key, query) && Matches(query, query, s);
        } else if s == Overlap || s == ContainedBy {
          var v :| v in query && Bit(key.sign, HashVal(v));
          assert Covers(key, [v]) && v in [v] && Matches([v], query, s);
        }
      }
      forall x | Covers(key, x) && (s == ContainedBy ==> x != []) && Matches(x, query, s)
        ensures SignTest(key, query, s, false)
      {
        MatchPassesPage(key, x, query, s);
      }
    }
  }

  /** For a boolean query: exactly if some way to make it true, NOT being taken as true, has its bits in the key. */
  lemma BooleanSignExactly(key: SignKey, query: seq<int>, items: seq<Item>, e: Expr, leaf: bool)
    requires Valid(key) && key.Signed? && Rooted(items, |items| - 1, e)
    ensures Askable(Boolean(items))
    ensures SignTest(key, query, Boolean(items), leaf) <==> SomeWay(e, v => KeyBit(key, HashVal(v)))
  {
    RelaxedExactly(items, |items| - 1, e, i => BitHolding(items, key.sign, i), v => KeyBit(key, HashVal(v)));
  }

  // ----- which entries pass -----

  /** The numbers of the bits that are set, below n; each hashes to itself. */
  function BitsOf(sign: seq<bv8>, n: nat): (bits: seq<int>)
    requires Sign(sign) && n <= SIGLENBIT
    ensures forall h: nat :: h < SIGLENBIT ==> (h in bits <==> h < n && Bit(sign, h))
    ensures forall i :: 0 <= i < |bits| ==> 0 <= bits[i] < n
  {
    if n == 0 then [] else BitsOf(sign, n - 1) + (if Bit(sign, n - 1) then [n - 1] else [])
  }

  lemma HashOfSmall(h: nat)
    requires h < SIGLENBIT
    ensures HashVal(h) == h
  {
  }

  /** An array with the bits of sign, whatever elements with bits of sign are added. */
  lemma WithBits(sign: seq<bv8>, more: seq<int>)
    requires Sign(sign) && forall i :: 0 <= i < |more| ==> Bit(sign, HashVal(more[i]))
    ensures Signs(sign, BitsOf(sign, SIGLENBIT) + more)
  {
    var bits := BitsOf(sign, SIGLENBIT);
    var x := bits + more;
    forall h: nat | h < SIGLENBIT ensures Bit(sign, h) <==> Hashed(x, h) {
      if Bit(sign, h) {
        var i :| 0 <= i < |bits| && bits[i] == h;
        HashOfSmall(h);
        assert x[i] == h;
      }
      if Hashed(x, h) {
        var i :| 0 <= i < |x| && HashVal(x[i]) == h;
        if i < |bits| { HashOfSmall(bits[i]); assert bits[i] in bits; } else { assert x[i] == more[i - |bits|]; }
      }
    }
  }

  /** The elements of the query whose bit is set. */
  function Within(sign: seq<bv8>, query: seq<int>): (x: seq<int>)
    requires Sign(sign)
    ensures forall v :: v in x <==> v in query && Bit(sign, HashVal(v))
  {
    if query == [] then []
    else (if Bit(sign, HashVal(query[0])) then [query[0]] else []) + Within(sign, query[1..])
  }

  lemma WithinSigns(sign: seq<bv8>, query: seq<int>)
    requires Sign(sign) && forall h: nat :: h < SIGLENBIT && Bit(sign, h) ==> Hashed(query, h)
    ensures Signs(sign, Within(sign, query))
  {
    var x := Within(sign, query);
    forall h: nat | h < SIGLENBIT ensures Bit(sign, h) <==> Hashed(x, h) {
      if Bit(sign, h) {
        var i :| 0 <= i < |query| && HashVal(query[i]) == h;
        assert query[i] in x;
        var j :| 0 <= j < |x| && x[j] == query[i];
      }
      if Hashed(x, h) {
        var j :| 0 <= j < |x| && HashVal(x[j]) == h;
        assert x[j] in x;
      }
    }
  }

  /** An entry passes exactly if some array with its signature matches. */
  lemma LeafTestExactly(sign: seq<bv8>, query: seq<int>, s: Strategy)
    requires Sign(sign) && !s.Boolean?
    ensures SignTest(Signed(sign), query, s, true) <==> exists x :: Signs(sign, x) && Matches(x, query, s)
  {
    if SignTest(Signed(sign), query, s, true) {
      match s
      case Overlap =>
        var v :| v in query && Bit(sign, HashVal(v));
        WithBits(sign, [v]);
        var x := BitsOf(sign, SIGLENBIT) + [v];
        assert v in x && Signs(sign, x) && Matches(x, query, s);
      case Same => assert Signs(sign, query) && Matches(query, query, s);
      case Contains =>
        WithBits(sign, query);
        assert Signs(sign, BitsOf(sign, SIGLENBIT) + query);
        assert Matches(BitsOf(sign, SIGLENBIT) + query, query, s);
      case ContainedBy =>
        WithinSigns(sign, query);
        assert Signs(sign, Within(sign, query)) && Matches(Within(sign, query), query, s);
    }
    forall x | Signs(sign, x) && Matches(x, query, s) ensures SignTest(Signed(sign), query, s, true) {
      MatchPassesLeaf(sign, x, query, s);
    }
  }

  /** A "contained by" search can rely on the page keys exactly for arrays that are not empty. */
  lemma ContainedByPassesExactly(x: seq<int>)
    ensures (forall key, query ::
      Covers(key, x) && Matches(x, query, ContainedBy) ==> SignTest(key, query, ContainedBy, false)) <==> x != []
  {
    if x == [] {
      var none := Signed(seq(SIGLEN, i => 0));
      assert Covers(none, x) && Matches(x, [], ContainedBy) && !SignTest(none, [], ContainedBy, false);
    } else {
      forall key, query | Covers(key, x) && Matches(x, query, ContainedBy)
        ensures SignTest(key, query, ContainedBy, false)
      {
        MatchPassesPage(key, x, query, ContainedBy);
      }
    }
  }
}
