/** hstore_in and hstore_out over buffers: the printer never writes past what it allocated. */
module HstoreOut {
  import opened HstoreFormat
  import opened HstoreText
  import opened HstoreIO

  // ----- the space that is set aside -----

  function PairSpace(p: Pair): nat {
    6 + 2 * |p.key| + 2 + if p.val.Null? then 2 else 2 * |p.val.s|
  }

  function Space(ps: seq<Pair>): nat {
    if ps == [] then 0 else PairSpace(ps[0]) + Space(ps[1..])
  }

  lemma {:induction false} EscapeSpace(s: string)
    ensures |s| <= |Escape(s)| <= 2 * |s|
  {
    if s != [] { EscapeSpace(s[1..]); }
  }

  /** A printed pair, the separator after it and a terminator fit into the space of the pair. */
  lemma PairFits(p: Pair)
    ensures |PrintPair(p)| + 2 <= PairSpace(p)
  {
    EscapeSpace(p.key);
    if p.val.Str? { EscapeSpace(p.val.s); }
  }

  // ----- writing -----

  /** out holds text up to pos. */
  ghost predicate Holds(out: seq<char>, pos: int, text: string) {
    0 <= pos == |text| <= |out| && out[..pos] == text
  }

  method Put(out: array<char>, pos: int, c: char, ghost text: string) returns (pos': int)
    requires Holds(out[..], pos, text) && pos < out.Length
    modifies out
    ensures Holds(out[..], pos', text + [c]) && pos' == pos + 1
  {
    out[pos] := c;
    pos' := pos + 1;
    assert out[..][..pos'] == text + [c];
  }

  method PutAll(out: array<char>, pos: int, s: string, ghost text: string) returns (pos': int)
    requires Holds(out[..], pos, text) && pos + |s| <= out.Length
    modifies out
    ensures Holds(out[..], pos', text + s)
  {
    pos' := pos;
    assert text + s[..0] == text;
    for i := 0 to |s|
      invariant pos' == pos + i && Holds(out[..], pos', text + s[..i])
    {
      pos' := Put(out, pos', s[i], text + s[..i]);
      assert text + s[..i] + [s[i]] == text + s[..i + 1];
    }
    assert s[..|s|] == s;
  }

  /** Quotes and backslashes get a backslash in front. */
  method Cpw(dst: array<char>, pos: int, src: string, ghost text: string) returns (pos': int)
    requires Holds(dst[..], pos, text) && pos + |Escape(src)| <= dst.Length
    modifies dst
    ensures Holds(dst[..], pos', text + Escape(src))
  {
    pos' := pos;
    ghost var done := text;
    var i := 0;
    while i < |src|
      invariant 0 <= i <= |src| && Holds(dst[..], pos', done)
      invariant done + Escape(src[i..]) == text + Escape(src)
    {
      ghost var esc := Escape(src[i..]);
      assert src[i..][1..] == src[i + 1..];
      if src[i] == '"' || src[i] == '\\' {
        pos' := Put(dst, pos', '\\', done);
        done := done + ['\\'];
      }
      pos' := Put(dst, pos', src[i], done);
      done := done + [src[i]];
      i := i + 1;
    }
    assert src[i..] == [] && done + [] == done;
  }

  method PutPair(out: array<char>, pos: int, p: Pair, ghost text: string) returns (pos': int)
    requires Holds(out[..], pos, text) && pos + |PrintPair(p)| <= out.Length
    modifies out
    ensures Holds(out[..], pos', text + PrintPair(p))
  {
    ghost var q, k := "\"", Escape(p.key);
    pos' := PutAll(out, pos, "\"", text);
    pos' := Cpw(out, pos', p.key, text + q);
    pos' := PutAll(out, pos', "\"=>", text + q + k);
    if p.val.Null? {
      pos' := PutAll(out, pos', "NULL", text + q + k + "\"=>");
      assert text + q + k + "\"=>" + "NULL" == text + PrintPair(p);
    } else {
      pos' := PutAll(out, pos', "\"", text + q + k + "\"=>");
      pos' := Cpw(out, pos', p.val.s, text + q + k + "\"=>" + q);
      pos' := PutAll(out, pos', "\"", text + q + k + "\"=>" + q + Escape(p.val.s));
      assert text + q + k + "\"=>" + q + Escape(p.val.s) + q == text + PrintPair(p);
    }
  }

  lemma PrintStep(ps: seq<Pair>, i: nat)
    requires i < |ps|
    ensures Print(ps[i..]) == if i + 1 == |ps| then PrintPair(ps[i]) else PrintPair(ps[i]) + ", " + Print(ps[i + 1..])
    ensures Space(ps[i..]) == PairSpace(ps[i]) + Space(ps[i + 1..])
  {
    assert ps[i..][1..] == ps[i + 1..];
  }

  method SpaceNeeded(ps: seq<Pair>) returns (buflen: nat)
    ensures buflen == Space(ps)
  {
    buflen := 0;
    var i := 0;
    while i < |ps|
      invariant 0 <= i <= |ps| && buflen + Space(ps[i..]) == Space(ps)
    {
      PrintStep(ps, i);
      buflen := buflen + (6 + 2 * |ps[i].key|);
      buflen := buflen + (2 + if ps[i].val.Null? then 2 else 2 * |ps[i].val.s|);
      i := i + 1;
    }
  }

  lemma Regroup(text: string, pair: string, sep: string, rest: string)
    ensures text + (pair + sep + rest) == text + pair + sep + rest
  {
  }

  /** Pair i and the separator after it, unless it is the last one. */
  method PutItem(out: array<char>, pos: int, ps: seq<Pair>, i: int, ghost text: string)
    returns (pos': int, ghost text': string)
    requires 0 <= i < |ps| && Holds(out[..], pos, text) && pos + Space(ps[i..]) <= out.Length
    modifies out
    ensures Holds(out[..], pos', text')
    ensures i + 1 < |ps| ==>
      text' + Print(ps[i + 1..]) == text + Print(ps[i..]) && pos' + Space(ps[i + 1..]) <= out.Length
    ensures i + 1 == |ps| ==> text' == text + Print(ps[i..]) && pos' < out.Length
  {
    PrintStep(ps, i);
    PairFits(ps[i]);
    pos' := PutPair(out, pos, ps[i], text);
    text' := text + PrintPair(ps[i]);
    if i + 1 != |ps| {
      Regroup(text, PrintPair(ps[i]), ", ", Print(ps[i + 1..]));
      pos' := PutAll(out, pos', ", ", text');
      text' := text' + ", ";
    }
  }

  lemma {:induction false} SpaceOfBuffer(ps: seq<Pair>)
    ensures Space(ps) <= 10 * |ps| + 2 * |Buffer(ps)|
  {
    if ps != [] {
      SpaceOfBuffer(ps[1..]);
      BufferHead(ps);
    }
  }

  lemma {:induction false} BufferHead(ps: seq<Pair>)
    requires ps != []
    ensures |Buffer(ps)| == |ps[0].key| + |Bytes(ps[0].val)| + |Buffer(ps[1..])|
  {
    var n := |ps| - 1;
    if n > 0 {
      BufferHead(ps[..n]);
      assert ps[..n][1..] == ps[1..][..n - 1];
    }
  }

  /** The computed length of a stored value fits a 32-bit integer. */
  lemma SpaceIsInt32(hs: HStore)
    requires Shaped(hs) && hs.size <= MAX_ALLOC
    ensures Space(Decode(hs)) < 0x8000_0000
  {
    var ps := Decode(hs);
    SpaceOfBuffer(ps);
    DecodedBuffer(hs, ps, |ps|);
    assert ps[..|ps|] == ps;
  }

  /**
   The output function: the text, NUL-terminated, inside the space computed beforehand; refused if that
   space is more than the allocator serves.
   */
  method HstoreOut(hs: HStore) returns (ok: bool, out: array<char>, n: int)
    requires Shaped(hs)
    ensures fresh(out)
    ensures ok <==> hs.slots == [] || Space(Decode(hs)) <= MAX_ALLOC
    ensures ok ==> 0 <= n < out.Length && out[..n] == Print(Decode(hs)) && out[n] == '\0'
    ensures ok ==> out.Length == if hs.slots == [] then 1 else Space(Decode(hs))
  {
    var ps := Decode(hs);
    ok := true;
    if |ps| == 0 {
      out := new char[1];
      out[0] := '\0';
      n := 0;
      return;
    }
    var buflen := SpaceNeeded(ps);
    if buflen > MAX_ALLOC {
      out := new char[0];
      return false, out, 0;
    }
    out := new char[buflen];
    n := PutPairs(out, ps);
    out[n] := '\0';
  }

  method PutPairs(out: array<char>, ps: seq<Pair>) returns (n: int)
    requires |ps| > 0 && out.Length == Space(ps)
    modifies out
    ensures 0 <= n < out.Length && out[..n] == Print(ps)
  {
    n := 0;
    ghost var text := "";
    assert ps[0..] == ps && "" + Print(ps) == Print(ps);
    var i := 0;
    while i < |ps|
      invariant 0 <= i <= |ps| && Holds(out[..], n, text)
      invariant i < |ps| ==> text + Print(ps[i..]) == Print(ps) && n + Space(ps[i..]) <= out.Length
      invariant i == |ps| ==> text == Print(ps) && n < out.Length
    {
      n, text := PutItem(out, n, ps, i, text);
      i := i + 1;
    }
    assert out[..n] == out[..][..n];
  }

  /** The input function as it runs. */
  method HstoreInput(begin: string, qsort: seq<Pair> -> seq<Pair>) returns (r: Input)
    requires NoNul(begin)
    requires forall ps :: Sorts(ps, qsort(ps))
    ensures r == HstoreIn(begin, qsort)
  {
    var state := new HSParser(begin);
    var ok := state.ParseHstore();
    if !ok { return Refused; }
    var ps := state.pairs;
    var sorted := if |ps| < 2 then ps else qsort(ps);
    assert |sorted| == |multiset(sorted)| == |multiset(ps)| == |ps| by { assert |ps| >= 2 ==> Sorts(ps, qsort(ps)); }
    var a := new Pair[|ps|](i requires 0 <= i < |ps| => ps[i]);
    assert a[..] == ps;
    var n, buflen := HstoreUniquePairs(a, sorted);
    var packed := PackPairs(a[..n]);
    r := if packed.Ok? then Stored(packed.hs) else Refused;
  }
}
