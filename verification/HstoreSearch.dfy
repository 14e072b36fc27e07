/** Binary search in the stored keys with a cached lower bound, and the operators built on it. */
module HstoreSearch {
  import opened HstoreFormat
  import opened HstoreIO

  ghost predicate HasKey(ps: seq<Pair>, key: string) {
    exists i :: 0 <= i < |ps| && ps[i].key == key
  }

  /** Everything before bound sorts below key (or not above it). */
  ghost predicate AllBelow(ps: seq<Pair>, bound: int, key: string) {
    0 <= bound <= |ps| && forall i :: 0 <= i < bound ==> KeyLess(ps[i].key, key)
  }

  ghost predicate NoneAbove(ps: seq<Pair>, bound: int, key: string) {
    0 <= bound <= |ps| && forall i :: 0 <= i < bound ==> KeyCmp(ps[i].key, key) <= 0
  }

  ghost predicate AllAbove(ps: seq<Pair>, bound: int, key: string) {
    0 <= bound <= |ps| && forall i :: bound <= i < |ps| ==> KeyLess(key, ps[i].key)
  }

  lemma BelowAlso(ps: seq<Pair>, m: nat, key: string)
    requires Increasing(ps) && m < |ps| && KeyCmp(ps[m].key, key) <= 0
    ensures NoneAbove(ps, m + 1, key)
    ensures KeyLess(ps[m].key, key) ==> AllBelow(ps, m + 1, key)
    ensures AllBelow(ps, m, key)
  {
    forall i | 0 <= i < m ensures KeyLess(ps[i].key, key) { KeyLessTransitive(ps[i].key, ps[m].key, key); }
  }

  lemma AboveAlso(ps: seq<Pair>, m: nat, key: string)
    requires Increasing(ps) && m < |ps| && KeyCmp(ps[m].key, key) > 0
    ensures AllAbove(ps, m, key)
  {
    KeyCmpFlip(key, ps[m].key);
    forall i | m <= i < |ps| ensures KeyLess(key, ps[i].key) {
      if i > m { KeyLessTransitive(key, ps[m].key, ps[i].key); }
    }
  }

  lemma NotThere(ps: seq<Pair>, bound: int, key: string)
    requires AllBelow(ps, bound, key) && AllAbove(ps, bound, key)
    ensures !HasKey(ps, key)
  {
    KeyCmpFlip(key, key);
  }

  /** A later key may start where the search for an earlier one left off. */
  lemma NextKey(ps: seq<Pair>, bound: int, key: string, next: string)
    requires NoneAbove(ps, bound, key) && KeyLess(key, next)
    ensures AllBelow(ps, bound, next)
  {
    forall i | 0 <= i < bound ensures KeyLess(ps[i].key, next) { KeyLessTransitive(ps[i].key, key, next); }
  }

  /** The position of a key, or -1; lowbound moves up to where the search for a later key may start. */
  method HstoreFindKey(hs: HStore, lowbound: int, key: string) returns (idx: int, lowbound': int)
    requires Valid(hs) && AllBelow(Decode(hs), lowbound, key)
    ensures idx >= 0 ==> idx < |hs.slots| && Decode(hs)[idx].key == key
    ensures idx < 0 ==> !HasKey(Decode(hs), key)
    ensures NoneAbove(Decode(hs), lowbound', key)
    ensures lowbound <= lowbound' && (idx >= 0 ==> lowbound <= idx && lowbound' == idx + 1)
  {
    ghost var ps := Decode(hs);
    var low, high := lowbound, |hs.slots|;
    while low < high
      invariant lowbound <= low <= high <= |ps|
      invariant AllBelow(ps, low, key) && AllAbove(ps, high, key)
    {
      var middle := low + (high - low) / 2;
      var difference := KeyCmp(PairAt(hs, middle).key, key);
      if difference == 0 {
        KeyCmpFlip(ps[middle].key, key);
        BelowAlso(ps, middle, key);
        return middle, middle + 1;
      } else if difference < 0 {
        BelowAlso(ps, middle, key);
        low := middle + 1;
      } else {
        AboveAlso(ps, middle, key);
        high := middle;
      }
    }
    NotThere(ps, low, key);
    return -1, low;
  }

  // ----- keys given as an array -----

  ghost predicate Ascending(keys: seq<string>) {
    forall i, j :: 0 <= i < j < |keys| ==> KeyLess(keys[i], keys[j])
  }

  function KeysOf(ps: seq<Pair>): (ks: seq<string>)
    ensures |ks| == |ps| && forall i :: 0 <= i < |ps| ==> ks[i] == ps[i].key
  {
    seq(|ps|, i requires 0 <= i < |ps| => ps[i].key)
  }

  function KeyPairs(keys: seq<string>): (ps: seq<Pair>)
    ensures |ps| == |keys| && forall i :: 0 <= i < |keys| ==> ps[i] == Pair(keys[i], Null)
  {
    seq(|keys|, i requires 0 <= i < |keys| => Pair(keys[i], Null))
  }

  /** Sorted, without duplicates: the same keys in strictly increasing order. */
  method HstoreArrayToPairs(keys: seq<string>, qsort: seq<Pair> -> seq<Pair>) returns (sortedKeys: seq<string>)
    requires Sorts(KeyPairs(keys), qsort(KeyPairs(keys)))
    ensures Ascending(sortedKeys)
    ensures forall k :: k in sortedKeys <==> k in keys
  {
    var ps := KeyPairs(keys);
    var sorted := if |keys| < 2 then ps else qsort(ps);
    assert Sorts(ps, sorted);
    assert |sorted| == |multiset(sorted)| == |multiset(ps)| == |ps|;
    var a := new Pair[|ps|](i requires 0 <= i < |ps| => ps[i]);
    assert a[..] == ps;
    var n, buflen := HstoreUniquePairs(a, sorted);
    UniqIncreasing(sorted);
    sortedKeys := KeysOf(a[..n]);
    SameKeys(keys, sorted, sortedKeys);
  }

  lemma SameKeys(keys: seq<string>, sorted: seq<Pair>, sortedKeys: seq<string>)
    requires multiset(sorted) == multiset(KeyPairs(keys)) && sortedKeys == KeysOf(Uniq(sorted))
    ensures forall k :: k in sortedKeys <==> k in keys
  {
    forall k ensures k in sortedKeys <==> k in keys {
      var ps := KeyPairs(keys);
      if k in keys {
        var i :| 0 <= i < |keys| && keys[i] == k;
        assert ps[i] in multiset(sorted);
        var u := UniqCovers(sorted, ps[i]);
        var j :| 0 <= j < |Uniq(sorted)| && Uniq(sorted)[j] == u;
        assert sortedKeys[j] == k;
      }
      if k in sortedKeys {
        var j :| 0 <= j < |sortedKeys| && sortedKeys[j] == k;
        UniqFrom(sorted, Uniq(sorted)[j]);
        assert Uniq(sorted)[j] in multiset(ps);
        var i :| 0 <= i < |ps| && ps[i] == Uniq(sorted)[j];
        assert keys[i] == k;
      }
    }
  }

  // ----- operators -----

  /** Are all keys present?  Each search starts where the one before it stopped. */
  method ExistsAll(hs: HStore, keys: seq<string>) returns (res: bool)
    requires Valid(hs) && Ascending(keys)
    ensures res <==> forall i :: 0 <= i < |keys| ==> HasKey(Decode(hs), keys[i])
  {
    var lowbound := 0;
    for i := 0 to |keys|
      invariant 0 <= lowbound <= |hs.slots|
      invariant i < |keys| ==> AllBelow(Decode(hs), lowbound, keys[i])
      invariant forall k :: 0 <= k < i ==> HasKey(Decode(hs), keys[k])
    {
      var idx;
      idx, lowbound := HstoreFindKey(hs, lowbound, keys[i]);
      if idx < 0 { return false; }
      if i + 1 < |keys| { NextKey(Decode(hs), lowbound, keys[i], keys[i + 1]); }
    }
    return true;
  }

  /** Is any key present? */
  method ExistsAny(hs: HStore, keys: seq<string>) returns (res: bool)
    requires Valid(hs) && Ascending(keys)
    ensures res <==> exists i :: 0 <= i < |keys| && HasKey(Decode(hs), keys[i])
  {
    var lowbound := 0;
    for i := 0 to |keys|
      invariant 0 <= lowbound <= |hs.slots|
      invariant i < |keys| ==> AllBelow(Decode(hs), lowbound, keys[i])
      invariant forall k :: 0 <= k < i ==> !HasKey(Decode(hs), keys[k])
    {
      var idx;
      idx, lowbound := HstoreFindKey(hs, lowbound, keys[i]);
      if idx >= 0 { return true; }
      if i + 1 < |keys| { NextKey(Decode(hs), lowbound, keys[i], keys[i + 1]); }
    }
    return false;
  }

  lemma OneValue(ps: seq<Pair>, i: nat, p: Pair)
    requires Increasing(ps) && i < |ps| && ps[i].key == p.key
    ensures p in ps <==> ps[i] == p
  {
    if p in ps {
      var j :| 0 <= j < |ps| && ps[j] == p;
      KeyCmpFlip(p.key, p.key);
    }
  }

  /** Is this pair in val, key and value? */
  method FindPair(val: HStore, lastidx: int, t: Pair) returns (found: bool, lastidx': int)
    requires Valid(val) && AllBelow(Decode(val), lastidx, t.key)
    ensures found <==> t in Decode(val)
    ensures NoneAbove(Decode(val), lastidx', t.key)
  {
    var idx;
    idx, lastidx' := HstoreFindKey(val, lastidx, t.key);
    if idx >= 0 { OneValue(Decode(val), idx, t); }
    found := idx >= 0 && PairAt(val, idx).val == t.val;
  }

  /** Containment: every pair of the template is a pair of the value. */
  method HstoreContains(val: HStore, tmpl: HStore) returns (res: bool)
    requires Valid(val) && Valid(tmpl)
    ensures res <==> forall p :: p in Decode(tmpl) ==> p in Decode(val)
  {
    ghost var ts := Decode(tmpl);
    var lastidx := 0;
    for i := 0 to |tmpl.slots|
      invariant 0 <= lastidx <= |val.slots|
      invariant i < |ts| ==> AllBelow(Decode(val), lastidx, ts[i].key)
      invariant forall k :: 0 <= k < i ==> ts[k] in Decode(val)
    {
      var found;
      found, lastidx := FindPair(val, lastidx, PairAt(tmpl, i));
      if !found {
        assert ts[i] in ts;
        return false;
      }
      if i + 1 < |ts| { NextKey(Decode(val), lastidx, ts[i].key, ts[i + 1].key); }
    }
    return true;
  }

  lemma BufferGrows(ps: seq<Pair>, i: nat, j: nat)
    requires i <= j <= |ps|
    ensures |Buffer(ps[..i])| <= |Buffer(ps[..j])|
  {
    BufferPrefix(ps[..j], i);
    assert ps[..j][..i] == ps[..i];
  }

  /** Pairs taken from left to right need no more bytes than all pairs up to there. */
  lemma SliceFits(ps: seq<Pair>, out: seq<Pair>, from: nat, idx: int, to: nat)
    requires from <= to <= |ps| && |out| <= from && |Buffer(out)| <= |Buffer(ps[..from])|
    requires idx >= 0 ==> from <= idx < |ps| && to == idx + 1
    ensures |Buffer(out)| <= |Buffer(ps[..to])|
    ensures idx >= 0 ==> |Buffer(out + [ps[idx]])| <= |Buffer(ps[..to])|
  {
    BufferGrows(ps, from, to);
    if idx >= 0 {
      BufferGrows(ps, from, idx);
      BufferAt(ps, idx);
      assert (out + [ps[idx]])[..|out|] == out;
    }
  }

  /** The pairs for the first i keys have been taken, all of them from before lastidx. */
  ghost predicate Sliced(ps: seq<Pair>, keys: seq<string>, i: nat, out: seq<Pair>, lastidx: int) {
    && i <= |keys| && 0 <= lastidx <= |ps|
    && (i < |keys| ==> AllBelow(ps, lastidx, keys[i]) && AllBelow(out, |out|, keys[i]))
    && Increasing(out) && (forall p :: p in out <==> p in ps && p.key in keys[..i])
    && |out| <= lastidx && |Buffer(out)| <= |Buffer(ps[..lastidx])|
  }

  /** The next key. */
  method SliceOne(hs: HStore, keys: seq<string>, i: nat, out: seq<Pair>, lastidx: int)
    returns (out': seq<Pair>, lastidx': int)
    requires Valid(hs) && Ascending(keys) && i < |keys| && Sliced(Decode(hs), keys, i, out, lastidx)
    ensures Sliced(Decode(hs), keys, i + 1, out', lastidx')
  {
    ghost var ps := Decode(hs);
    var idx;
    idx, lastidx' := HstoreFindKey(hs, lastidx, keys[i]);
    SliceFits(ps, out, lastidx, idx, lastidx');
    out' := if idx >= 0 then out + [PairAt(hs, idx)] else out;
    TakenMore(ps, keys, i, out, idx, out');
    if i + 1 < |keys| {
      NextKey(ps, lastidx', keys[i], keys[i + 1]);
      BelowNext(out', keys[i], keys[i + 1]);
    }
  }

  lemma TakenMore(ps: seq<Pair>, keys: seq<string>, i: nat, out: seq<Pair>, idx: int, out': seq<Pair>)
    requires Increasing(ps) && i < |keys| && forall p :: p in out <==> p in ps && p.key in keys[..i]
    requires if idx >= 0 then idx < |ps| && ps[idx].key == keys[i] && out' == out + [ps[idx]]
      else !HasKey(ps, keys[i]) && out' == out
    ensures forall p :: p in out' <==> p in ps && p.key in keys[..i + 1]
  {
    assert keys[..i + 1] == keys[..i] + [keys[i]];
    forall q ensures q in out' <==> q in ps && q.key in keys[..i + 1] {
      if idx >= 0 && q.key == keys[i] { OneValue(ps, idx, q); }
    }
  }

  lemma BelowNext(out: seq<Pair>, key: string, next: string)
    requires KeyLess(key, next) && forall k :: 0 <= k < |out| ==> KeyLess(out[k].key, key) || out[k].key == key
    ensures AllBelow(out, |out|, next)
  {
    forall k | 0 <= k < |out| ensures KeyLess(out[k].key, next) {
      if out[k].key != key { KeyLessTransitive(out[k].key, key, next); }
    }
  }

  /** The pairs of hs whose key is listed. */
  method SliceToHstore(hs: HStore, keys: seq<string>) returns (r: Packed)
    requires Valid(hs) && Ascending(keys)
    ensures hs.size <= MAX_ALLOC ==> r.Ok?
    ensures r.Ok? ==> Valid(r.hs) && forall p :: p in Decode(r.hs) <==> p in Decode(hs) && p.key in keys
  {
    ghost var ps := Decode(hs);
    var out, lastidx := [], 0;
    for i := 0 to |keys|
      invariant Sliced(ps, keys, i, out, lastidx)
    {
      out, lastidx := SliceOne(hs, keys, i, out, lastidx);
    }
    assert keys[..|keys|] == keys;
    r := PackPairs(out);
    DecodeEncode(out);
    SliceIsSmaller(hs, out, lastidx);
  }

  lemma SliceIsSmaller(hs: HStore, out: seq<Pair>, lastidx: nat)
    requires Shaped(hs) && |out| <= lastidx <= |Decode(hs)| && |Buffer(out)| <= |Buffer(Decode(hs)[..lastidx])|
    ensures DataSize(|out|, |Buffer(out)|) <= hs.size
  {
    var ps := Decode(hs);
    EncodeDecode(hs);
    BufferGrows(ps, lastidx, |ps|);
    assert ps[..|ps|] == ps;
  }
}
