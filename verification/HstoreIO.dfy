/** Input and output of hstore as they run: the parser, sorting out duplicate keys, packing, printing. */
module HstoreIO {
  import opened HstoreFormat
  import opened HstoreText
  import opened HstoreGrammar

  // ----- duplicate keys -----

  ghost predicate NonDecreasing(ps: seq<Pair>) {
    forall i, j :: 0 <= i < j < |ps| ==> KeyCmp(ps[i].key, ps[j].key) <= 0
  }

  /** What qsort may leave. */
  ghost predicate Sorts(ps: seq<Pair>, sorted: seq<Pair>) {
    multiset(sorted) == multiset(ps) && NonDecreasing(sorted)
  }

  /** The first of every run of equal keys. */
  function Uniq(ps: seq<Pair>): seq<Pair> {
    if ps == [] then []
    else
      var u, p := Uniq(ps[..|ps| - 1]), ps[|ps| - 1];
      if u != [] && u[|u| - 1].key == p.key then u else u + [p]
  }

  lemma {:induction false} UniqLast(ps: seq<Pair>)
    requires ps != []
    ensures Uniq(ps) != [] && Uniq(ps)[|Uniq(ps)| - 1].key == ps[|ps| - 1].key && |Uniq(ps)| <= |ps|
  {
    if |ps| > 1 { UniqLast(ps[..|ps| - 1]); }
  }

  lemma {:induction false} UniqFrom(ps: seq<Pair>, u: Pair)
    requires u in Uniq(ps)
    ensures u in ps
  {
    var front, p := ps[..|ps| - 1], ps[|ps| - 1];
    assert ps == front + [p];
    if u in Uniq(front) { UniqFrom(front, u); }
  }

  /** A pair is kept exactly if it begins a run of equal keys. */
  lemma {:induction false} UniqExactly(ps: seq<Pair>, u: Pair)
    ensures u in Uniq(ps) <==> exists i :: 0 <= i < |ps| && ps[i] == u && StartsRun(ps, i)
  {
    if ps != [] {
      var n := |ps| - 1;
      var front := ps[..n];
      UniqExactly(front, u);
      if n > 0 { UniqLast(front); }
      assert forall i :: 0 <= i < n ==> front[i] == ps[i] && (StartsRun(front, i) <==> StartsRun(ps, i));
      assert StartsRun(ps, n) <==> !(Uniq(front) != [] && Uniq(front)[|Uniq(front)| - 1].key == ps[n].key);
    }
  }

  predicate StartsRun(ps: seq<Pair>, i: int)
    requires 0 <= i < |ps|
  {
    i == 0 || ps[i - 1].key != ps[i].key
  }

  /** No key is lost. */
  lemma {:induction false} UniqCovers(ps: seq<Pair>, p: Pair) returns (u: Pair)
    requires p in ps
    ensures u in Uniq(ps) && u.key == p.key
  {
    var front, last := ps[..|ps| - 1], ps[|ps| - 1];
    assert ps == front + [last];
    if p in front {
      u := UniqCovers(front, p);
    } else {
      UniqLast(ps);
      u := Uniq(ps)[|Uniq(ps)| - 1];
    }
  }

  lemma UniqStep(ps: seq<Pair>, k: nat)
    requires 0 < k < |ps|
    ensures var u := Uniq(ps[..k]);
      u != [] && Uniq(ps[..k + 1]) == if u[|u| - 1].key == ps[k].key then u else u + [ps[k]]
  {
    UniqLast(ps[..k]);
    assert ps[..k + 1][..k] == ps[..k];
  }

  lemma {:induction false} UniqIncreasing(ps: seq<Pair>)
    requires NonDecreasing(ps)
    ensures Increasing(Uniq(ps))
  {
    if |ps| > 1 {
      var front, p := ps[..|ps| - 1], ps[|ps| - 1];
      UniqIncreasing(front);
      UniqLast(front);
      var u := Uniq(front);
      var last := u[|u| - 1];
      if last.key != p.key {
        assert last.key == ps[|ps| - 2].key;
        assert KeyCmp(last.key, p.key) <= 0;
        KeyCmpFlip(last.key, p.key);
        forall i | 0 <= i < |u| ensures KeyLess(u[i].key, p.key) {
          if i < |u| - 1 { KeyLessTransitive(u[i].key, last.key, p.key); }
        }
      }
    }
  }

  lemma KeyLessDiffers(a: string, b: string)
    requires KeyLess(a, b)
    ensures a != b
  {
    KeyCmpFlip(a, b);
  }

  lemma UniqOfIncreasing(ps: seq<Pair>)
    requires Increasing(ps)
    ensures Uniq(ps) == ps
  {
    forall i: nat | 0 < i < |ps| ensures Changes(ps, i) { KeyLessDiffers(ps[i - 1].key, ps[i].key); }
    UniqOfChanges(ps, |ps|);
    assert ps[..|ps|] == ps;
  }

  ghost predicate Changes(ps: seq<Pair>, i: nat)
    requires 0 < i < |ps|
  {
    ps[i - 1].key != ps[i].key
  }

  lemma {:induction false} UniqOfChanges(ps: seq<Pair>, i: nat)
    requires i <= |ps| && forall k: nat :: 0 < k < |ps| ==> Changes(ps, k)
    ensures Uniq(ps[..i]) == ps[..i]
  {
    if i > 0 {
      UniqOfChanges(ps, i - 1);
      assert i > 1 ==> Changes(ps, i - 1);
      UniqOneMore(ps[..i - 1], ps[i - 1]);
      assert ps[..i] == ps[..i - 1] + [ps[i - 1]];
    }
  }

  lemma UniqOneMore(front: seq<Pair>, p: Pair)
    requires Uniq(front) == front && (front != [] ==> front[|front| - 1].key != p.key)
    ensures Uniq(front + [p]) == front + [p]
  {
    assert (front + [p])[..|front|] == front;
  }

  /** With distinct keys there is only one sorted arrangement. */
  lemma {:induction false} SortedOnce(ps: seq<Pair>, sorted: seq<Pair>)
    requires Increasing(ps) && Sorts(ps, sorted)
    ensures sorted == ps
    decreases |ps|
  {
    assert |multiset(ps)| == |ps| && |multiset(sorted)| == |sorted|;
    if ps != [] {
      var n := |ps| - 1;
      var p, q := ps[n], sorted[n];
      LastIsLast(ps, sorted);
      PrefixSorts(ps, sorted);
      SortedOnce(ps[..n], sorted[..n]);
      assert ps == ps[..n] + [p] && sorted == sorted[..n] + [q];
    }
  }

  lemma PrefixSorts(ps: seq<Pair>, sorted: seq<Pair>)
    requires |ps| == |sorted| > 0 && Increasing(ps) && Sorts(ps, sorted) && ps[|ps| - 1] == sorted[|ps| - 1]
    ensures Increasing(ps[..|ps| - 1]) && Sorts(ps[..|ps| - 1], sorted[..|ps| - 1])
  {
    var n := |ps| - 1;
    SameButLast(ps, sorted);
  }

  lemma SameButLast(a: seq<Pair>, b: seq<Pair>)
    requires |a| == |b| > 0 && multiset(a) == multiset(b) && a[|a| - 1] == b[|a| - 1]
    ensures multiset(a[..|a| - 1]) == multiset(b[..|a| - 1])
  {
    var n := |a| - 1;
    assert a == a[..n] + [a[n]] && b == b[..n] + [a[n]];
    assert multiset(a[..n]) == multiset(a) - multiset{a[n]};
    assert multiset(b[..n]) == multiset(b) - multiset{a[n]};
  }

  lemma LastIsLast(ps: seq<Pair>, sorted: seq<Pair>)
    requires |ps| == |sorted| > 0 && Increasing(ps) && Sorts(ps, sorted)
    ensures ps[|ps| - 1] == sorted[|ps| - 1]
  {
    var n := |ps| - 1;
    var p, q := ps[n], sorted[n];
    assert p in multiset(sorted) && q in multiset(ps);
    var i :| 0 <= i <= n && sorted[i] == p;
    var j :| 0 <= j <= n && ps[j] == q;
    KeyCmpFlip(p.key, q.key);
    assert i < n ==> KeyCmp(sorted[i].key, sorted[n].key) <= 0;
    if j < n { assert false; }
  }

  /** In place over what qsort left: the run length n and the bytes that the kept pairs need. */
  method HstoreUniquePairs(a: array<Pair>, sorted: seq<Pair>) returns (n: nat, buflen: int)
    requires |sorted| == a.Length
    requires a.Length < 2 ==> sorted == a[..]
    modifies a
    ensures n <= a.Length && a[..n] == Uniq(sorted) && buflen == |Buffer(Uniq(sorted))|
  {
    if a.Length < 2 {
      buflen := if a.Length == 1 then |a[0].key| + |Bytes(a[0].val)| else 0;
      n := a.Length;
      assert a.Length == 1 ==> a[..1] == sorted && sorted[..0] == [];
      return;
    }
    forall i | 0 <= i < a.Length { a[i] := sorted[i]; }
    assert a[..] == sorted;
    n, buflen := KeepFirsts(a, sorted);
  }

  lemma UniqOne(ps: seq<Pair>)
    requires ps != []
    ensures Uniq(ps[..1]) == [ps[0]] && |Buffer([ps[0]])| == Cost(ps[0])
  {
    assert ps[..1] == [ps[0]] && [ps[0]][..0] == [];
    assert Uniq([]) == [];
  }

  function Cost(p: Pair): nat {
    |p.key| + |Bytes(p.val)|
  }

  lemma BufferSnoc(u: seq<Pair>, p: Pair)
    ensures |Buffer(u + [p])| == |Buffer(u)| + Cost(p)
  {
    assert (u + [p])[..|u|] == u;
  }

  /** The pairs kept so far are at 0..res, the ones not looked at are where qsort left them. */
  ghost predicate Keeping(a: seq<Pair>, sorted: seq<Pair>, u: seq<Pair>, res: int, ptr: int, buflen: int) {
    && 0 <= res < ptr <= |a| == |sorted| && |u| == res + 1
    && (forall i :: 0 <= i <= res ==> a[i] == u[i])
    && (forall i :: ptr <= i < |a| ==> a[i] == sorted[i])
    && buflen + Cost(u[res]) == |Buffer(u)|
  }

  /** One turn: res is the last pair kept, ptr the one to look at. */
  method KeepOne(a: array<Pair>, res: int, ptr: int, buflen: int, ghost sorted: seq<Pair>, ghost u: seq<Pair>)
    returns (res': int, buflen': int, ghost u': seq<Pair>)
    requires Keeping(a[..], sorted, u, res, ptr, buflen) && ptr < a.Length
    modifies a
    ensures u' == if u[|u| - 1].key == sorted[ptr].key then u else u + [sorted[ptr]]
    ensures Keeping(a[..], sorted, u', res', ptr + 1, buflen')
  {
    res', buflen', u' := res, buflen, u;
    if a[ptr].key != a[res].key {
      buflen' := buflen' + Cost(a[res]);
      BufferSnoc(u, sorted[ptr]);
      u' := u + [sorted[ptr]];
      res' := res' + 1;
      a[res'] := a[ptr];
    }
  }

  method KeepFirsts(a: array<Pair>, ghost sorted: seq<Pair>) returns (n: nat, buflen: int)
    requires a.Length >= 2 && sorted == a[..]
    modifies a
    ensures n <= a.Length && a[..n] == Uniq(sorted) && buflen == |Buffer(Uniq(sorted))|
  {
    ghost var u := Uniq(sorted[..1]);
    UniqOne(sorted);
    var res, ptr := 0, 1;
    buflen := 0;
    while ptr < a.Length
      invariant Keeping(a[..], sorted, u, res, ptr, buflen)
      invariant u == Uniq(sorted[..ptr])
    {
      UniqStep(sorted, ptr);
      res, buflen, u := KeepOne(a, res, ptr, buflen, sorted, u);
      ptr := ptr + 1;
    }
    KeepingDone(a[..], sorted, u, res, buflen);
    buflen := buflen + Cost(a[res]);
    n := res + 1;
  }

  lemma KeepingDone(a: seq<Pair>, sorted: seq<Pair>, u: seq<Pair>, res: int, buflen: int)
    requires Keeping(a, sorted, u, res, |a|, buflen) && u == Uniq(sorted[..|a|])
    ensures a[..res + 1] == Uniq(sorted) && buflen + Cost(a[res]) == |Buffer(Uniq(sorted))|
  {
    assert sorted[..|a|] == sorted;
    assert a[..res + 1] == u;
  }

  // ----- input -----

  datatype Input = Stored(hs: HStore) | Refused

  /** hstore_in as a function of the text and of how qsort arranges pairs. */
  function HstoreIn(t: string, qsort: seq<Pair> -> seq<Pair>): Input
    requires NoNul(t)
  {
    match ParseKey(t, [])
    case Failed => Refused
    case Pairs(ps) =>
      var u := Uniq(if |ps| < 2 then ps else qsort(ps));
      if DataSize(|u|, |Buffer(u)|) <= MAX_ALLOC then Stored(Encode(u)) else Refused
  }

  /** Every accepted text gives a valid stored value. */
  lemma StoredIsValid(t: string, qsort: seq<Pair> -> seq<Pair>)
    requires NoNul(t) && HstoreIn(t, qsort).Stored?
    requires ParseKey(t, []).Pairs? ==> Sorts(ParseKey(t, []).ps, qsort(ParseKey(t, []).ps))
    ensures Valid(HstoreIn(t, qsort).hs)
  {
    var ps := ParseKey(t, []).ps;
    var sorted := if |ps| < 2 then ps else qsort(ps);
    assert NonDecreasing(sorted);
    UniqIncreasing(sorted);
    DecodeEncode(Uniq(sorted));
  }

  /** What a text that spells pairs is stored as: each key once, with the value of one of its pairs. */
  lemma StoredOfSpelled(t: string, ps: seq<Pair>, qsort: seq<Pair> -> seq<Pair>)
    requires NoNul(t) && Spells(t, ps) && Sorts(ps, qsort(ps)) && HstoreIn(t, qsort).Stored?
    ensures var hs := HstoreIn(t, qsort).hs;
      && Valid(hs)
      && (forall u :: u in Decode(hs) ==> u in ps)
      && (forall p :: p in ps ==> exists u :: u in Decode(hs) && u.key == p.key)
  {
    ParsedExactly(t);
    assert ParseKey(t, []) == Pairs(ps);
    StoredIsValid(t, qsort);
    var sorted := if |ps| < 2 then ps else qsort(ps);
    DecodeEncode(Uniq(sorted));
    forall p ensures p in sorted <==> p in ps {
      assert p in sorted <==> p in multiset(sorted);
      assert p in ps <==> p in multiset(ps);
    }
    forall u | u in Uniq(sorted) ensures u in ps { UniqFrom(sorted, u); }
    forall p | p in ps ensures exists u :: u in Uniq(sorted) && u.key == p.key { var u := UniqCovers(sorted, p); }
  }

  ghost predicate Clean(hs: HStore)
    requires Shaped(hs)
  {
    NoNul(hs.buf) && hs.size <= MAX_ALLOC
  }

  lemma CleanPairs(hs: HStore)
    requires Shaped(hs) && Clean(hs)
    ensures forall i :: 0 <= i < |hs.slots| ==> Printable(Decode(hs)[i])
  {
    forall i | 0 <= i < |hs.slots| ensures Printable(Decode(hs)[i]) { assert SlotShaped(hs, i); }
  }

  /** Printing a stored value and reading the text gives the same stored value, whatever qsort does. */
  lemma HstoreRoundTrip(hs: HStore, qsort: seq<Pair> -> seq<Pair>)
    requires Valid(hs) && Clean(hs)
    requires Sorts(Decode(hs), qsort(Decode(hs)))
    ensures NoNul(Print(Decode(hs))) && HstoreIn(Print(Decode(hs)), qsort) == Stored(hs)
  {
    var ps := Decode(hs);
    CleanPairs(hs);
    PrintedRead(ps, []);
    assert [] + ps == ps;
    SortedOnce(ps, qsort(ps));
    UniqOfIncreasing(ps);
    EncodeDecode(hs);
  }

  // ----- the parser as it runs -----

  /** What one move does to the meaning of the rest of the text. */
  lemma OneTurn(begin: string, ptr: nat, st: WordState, ignoreEq: bool, word: string, escaped: bool)
    requires ptr <= |begin| && NoNul(begin)
    ensures var c := if ptr < |begin| then begin[ptr] else '\0';
      var g := GetVal(begin[ptr..], st, ignoreEq, word, escaped);
      match Next(st, c, ignoreEq)
      case Nothing => g == NoVal
      case Unexpected => g == Bad
      case Finish(back) =>
        && (back ==> st == InVal) && (!back ==> ptr < |begin|)
        && g == Word(word, escaped, begin[if back then ptr else ptr + 1..])
      case Go(st', append) =>
        && ptr < |begin| && (st' == WaitVal ==> st == WaitVal && !append)
        && g == GetVal(begin[ptr + 1..], st', ignoreEq, if append then word + [c] else word,
                       escaped || (st == WaitVal && c == '"'))
  {
    if ptr < |begin| { assert begin[ptr..][1..] == begin[ptr + 1..]; }
  }

  datatype ParserState = WKey | WVal | WEq | WGt | WDel

  datatype Outcome = Found | AtEnd | SyntaxError

  class HSParser {
    const begin: string
    var ptr: int
    var word: string
    var escaped: bool
    var pairs: seq<Pair>

    constructor (begin: string)
      requires NoNul(begin)
      ensures this.begin == begin && ptr == 0 && pairs == []
    {
      this.begin := begin;
      ptr, word, escaped, pairs := 0, "", false, [];
    }

    function Left(): string
      requires 0 <= ptr <= |begin|
      reads this
    {
      begin[ptr..]
    }

    /** The word buffer doubles before it could overflow: there is room for one more character and a NUL. */
    static method Reserve(len: nat, wordlen: nat) returns (w: nat)
      requires len < wordlen && wordlen >= 32
      ensures w >= 32 && len + 1 < w
    {
      w := if len + 1 >= wordlen then wordlen * 2 else wordlen;
    }

    /** One turn of the word loop: what is left to read means the same before and after. */
    method Advance(st: WordState, ignoreEq: bool) returns (mv: Move)
      requires 0 <= ptr <= |begin| && NoNul(begin) && (st == InVal ==> ptr > 0)
      modifies this`ptr, this`word, this`escaped
      ensures var g := GetVal(old(Left()), st, ignoreEq, old(word), old(escaped));
        match mv
        case Nothing => g == NoVal
        case Unexpected => g == Bad
        case Finish(_) => old(ptr) <= ptr + 1 <= |begin| && ptr >= 0 && g == Word(word, escaped, begin[ptr + 1..])
        case Go(st', append) =>
          && ptr == old(ptr) + 1 <= |begin| && g == GetVal(Left(), st', ignoreEq, word, escaped)
          && |word| == |old(word)| + (if append then 1 else 0) && (st' == WaitVal ==> st == WaitVal && !append)
    {
      var c := if ptr < |begin| then begin[ptr] else '\0';
      OneTurn(begin, ptr, st, ignoreEq, word, escaped);
      mv := Next(st, c, ignoreEq);
      if mv.Finish? {
        if mv.back { ptr := ptr - 1; }
      } else if mv.Go? {
        if st == WaitVal && c == '"' { escaped := true; }
        if mv.append { word := word + [c]; }
        ptr := ptr + 1;
      }
    }

    /** The answer of get_val: false, an error, or a word and what is left to read after it. */
    function Answer(o: Outcome): Got
      requires o == Found ==> 0 <= ptr + 1 <= |begin|
      reads this
    {
      match o
      case Found => Word(word, escaped, begin[ptr + 1..])
      case AtEnd => NoVal
      case SyntaxError => Bad
    }

    method ReadWord(ignoreEq: bool) returns (o: Outcome)
      requires 0 <= ptr <= |begin| && NoNul(begin)
      modifies this`ptr, this`word, this`escaped
      ensures o == Found ==> 0 <= ptr + 1 <= |begin|
      ensures Answer(o) == GetVal(old(Left()), WaitVal, ignoreEq, "", false)
      ensures WordAt(old(Left()), !ignoreEq, Answer(o))
    {
      WordExactly(Left(), !ignoreEq);
      var st := WaitVal;
      var wordlen := 32;
      word, escaped := "", false;
      ghost var g := GetVal(Left(), WaitVal, ignoreEq, "", false);
      while true
        invariant old(ptr) <= ptr <= |begin|
        invariant GetVal(Left(), st, ignoreEq, word, escaped) == g
        invariant st == InVal ==> ptr > 0
        invariant |word| < wordlen && wordlen >= 32 && (st == WaitVal ==> word == "")
        decreases |begin| - ptr
      {
        if st != WaitVal { wordlen := Reserve(|word|, wordlen); }
        var mv := Advance(st, ignoreEq);
        match mv {
          case Nothing => return AtEnd;
          case Unexpected => return SyntaxError;
          case Finish(_) => return Found;
          case Go(st', _) => st := st';
        }
      }
    }

    /** A word, as far as the parser needs to know. */
    method NextWord(ignoreEq: bool) returns (o: Outcome)
      requires 0 <= ptr <= |begin| && NoNul(begin)
      modifies this`ptr, this`word, this`escaped
      ensures o == Found ==> 0 <= ptr + 1 <= |begin|
      ensures Answer(o) == GetVal(old(Left()), WaitVal, ignoreEq, "", false)
    {
      o := ReadWord(ignoreEq);
    }

    method ParseHstore() returns (ok: bool)
      requires ptr == 0 && pairs == [] && NoNul(begin)
      modifies this
      ensures (if ok then Pairs(pairs) else Failed) == ParseKey(begin, [])
      ensures ReadsAs(begin, if ok then Pairs(pairs) else Failed)
    {
      ok := ParsePairs();
      ParsedExactly(begin);
    }

    method ParsePairs() returns (ok: bool)
      requires ptr == 0 && pairs == [] && NoNul(begin)
      modifies this
      ensures (if ok then Pairs(pairs) else Failed) == ParseKey(begin, [])
    {
      var st := WKey;
      var key := "";
      assert begin[0..] == begin;
      ghost var goal := ParseKey(begin, []);
      while true
        invariant 0 <= ptr <= |begin|
        invariant Remaining(st, Left(), key, pairs) == goal
        decreases |begin| - ptr, if st == WKey then 4 else if st == WVal then 1 else 0
      {
        var c := if ptr < |begin| then begin[ptr] else '\0';
        assert c == Peek(Left());
        assert ptr < |begin| ==> Left()[1..] == begin[ptr + 1..];
        match st {
          case WKey =>
            var o := NextWord(false);
            if o == AtEnd { return true; }
            if o == SyntaxError || |word| > MAX_LEN { return false; }
            key := word;
            st := WEq;
          case WEq =>
            if c == '=' { st := WGt; }
            else if c == '\0' || !IsSpace(c) { return false; }
          case WGt =>
            if c == '>' { st := WVal; } else { return false; }
          case WVal =>
            var o := NextWord(true);
            if o != Found || |word| > MAX_LEN { return false; }
            var isnull := |word| == 4 && !escaped && IsNullWord(word);
            pairs := pairs + [Pair(key, if isnull then Null else Str(word))];
            st := WDel;
          case WDel =>
            if c == ',' { st := WKey; }
            else if c == '\0' { return true; }
            else if !IsSpace(c) { return false; }
        }
        ptr := ptr + 1;
      }
    }
  }

  function Remaining(st: ParserState, t: string, key: string, acc: seq<Pair>): Parsed
    requires NoNul(t)
  {
    match st
    case WKey => ParseKey(t, acc)
    case WEq => ParseEq(t, key, acc)
    case WGt => ParseGt(t, key, acc)
    case WVal => ParseVal(t, key, acc)
    case WDel => ParseDel(t, acc)
  }
}
