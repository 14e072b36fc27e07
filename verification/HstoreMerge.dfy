/** Operators that merge two sorted values into a new one: concatenation and deletion. */
module HstoreMerge {
  import opened HstoreFormat
  import opened HstoreSearch
  import opened HstoreMaps

  // ----- a value under construction -----

  ghost predicate Building(slots: seq<Slot>, buf: string, out: seq<Pair>) {
    slots == Slots(out) && buf == Buffer(out)
  }

  lemma BuildMore(out: seq<Pair>, p: Pair)
    ensures Slots(out + [p]) == Slots(out) + [SlotFor(|Buffer(out)|, p)]
    ensures Buffer(out + [p]) == Buffer(out) + p.key + Bytes(p.val)
  {
    assert (out + [p])[..|out|] == out;
  }

  lemma PairBytes(hs: HStore, i: nat)
    requires i < |hs.slots| && SlotShaped(hs, i)
    ensures var p, s := PairAt(hs, i), hs.slots[i];
      hs.buf[KeyOff(hs, i)..s.v.endpos] == p.key + Bytes(p.val) && s.v.endpos - s.k.endpos == |Bytes(p.val)|
  {
  }

  /** One pair of hs, whose key and value lie next to each other, into the value under construction. */
  method CopyItem(slots: seq<Slot>, buf: string, hs: HStore, i: int, ghost out: seq<Pair>)
    returns (slots': seq<Slot>, buf': string)
    requires Shaped(hs) && 0 <= i < |hs.slots| && Building(slots, buf, out)
    requires |buf| + |PairAt(hs, i).key| + |Bytes(PairAt(hs, i).val)| < POS_MODULUS
    ensures Building(slots', buf', out + [PairAt(hs, i)])
  {
    assert SlotShaped(hs, i);
    var s := hs.slots[i];
    var vlen := s.v.endpos - s.k.endpos;
    ghost var p := PairAt(hs, i);
    buf' := buf + hs.buf[KeyOff(hs, i)..s.v.endpos];
    PairBytes(hs, i);
    assert buf' == buf + p.key + Bytes(p.val);
    slots' := slots +
      [Slot(Entry(false, false, (|buf'| - vlen) % POS_MODULUS), Entry(false, s.v.isNull, |buf'| % POS_MODULUS))];
    assert slots'[|slots|] == SlotFor(|buf|, p);
    BuildMore(out, p);
  }

  method Finalize(slots: seq<Slot>, buf: string, ghost out: seq<Pair>) returns (hs: HStore)
    requires Building(slots, buf, out)
    ensures hs == Encode(out) && Shaped(hs) && Decode(hs) == out
  {
    var flagged := if |slots| > 0 then slots[0 := Flag(slots[0], true)] else slots;
    hs := HStore(DataSize(|slots|, |buf|), flagged, buf);
    assert hs == Encode(out);
    DecodeEncode(out);
  }

  /** The bytes of some pairs. */
  function Need(ps: seq<Pair>): nat {
    |Buffer(ps)|
  }

  lemma NeedMore(ps: seq<Pair>, i: nat)
    requires i < |ps|
    ensures Need(ps[..i + 1]) == Need(ps[..i]) + |ps[i].key| + |Bytes(ps[i].val)| <= Need(ps)
  {
    BufferAt(ps, i);
  }

  lemma NeedAppend(out: seq<Pair>, p: Pair)
    ensures Need(out + [p]) == Need(out) + |p.key| + |Bytes(p.val)|
  {
    BuildMore(out, p);
  }

  lemma StoredNeed(hs: HStore)
    requires Shaped(hs)
    ensures Need(Decode(hs)) == |hs.buf|
  {
    EncodeDecode(hs);
  }

  // ----- deletion -----

  /** A pair goes away when its key is listed, or when the very pair is. */
  ghost predicate Dropped(p: Pair, b: seq<Pair>, byKey: bool) {
    if byKey then HasKey(b, p.key) else p in b
  }

  ghost function Kept(a: seq<Pair>, b: seq<Pair>, byKey: bool): seq<Pair> {
    if a == [] then []
    else Kept(a[..|a| - 1], b, byKey) + if Dropped(a[|a| - 1], b, byKey) then [] else [a[|a| - 1]]
  }

  lemma {:induction false} KeptMeans(a: seq<Pair>, b: seq<Pair>, byKey: bool)
    requires Increasing(a)
    ensures Increasing(Kept(a, b, byKey))
    ensures forall p :: p in Kept(a, b, byKey) <==> p in a && !Dropped(p, b, byKey)
  {
    if a != [] {
      var front, last := a[..|a| - 1], a[|a| - 1];
      assert a == front + [last];
      KeptMeans(front, b, byKey);
      var k := Kept(front, b, byKey);
      forall i | 0 <= i < |k| ensures KeyLess(k[i].key, last.key) {
        assert k[i] in front;
        var j :| 0 <= j < |front| && front[j] == k[i];
        assert a[j] == k[i];
      }
    }
  }

  lemma KeptStep(a: seq<Pair>, i: nat, b: seq<Pair>, byKey: bool)
    requires i < |a|
    ensures Kept(a[..i + 1], b, byKey) == if Dropped(a[i], b, byKey) then Kept(a[..i], b, byKey)
      else Kept(a[..i], b, byKey) + [a[i]]
  {
    assert a[..i + 1][..i] == a[..i];
  }

  lemma KeptAdds(a: seq<Pair>, i: nat, b: seq<Pair>, byKey: bool)
    requires i < |a|
    ensures Need(Kept(a[..i + 1], b, byKey)) <= Need(Kept(a[..i], b, byKey)) + |a[i].key| + |Bytes(a[i].val)|
  {
    KeptStep(a, i, b, byKey);
    NeedAppend(Kept(a[..i], b, byKey), a[i]);
  }

  lemma {:induction false} KeptNeed(a: seq<Pair>, i: nat, b: seq<Pair>, byKey: bool)
    requires i <= |a|
    ensures Need(Kept(a[..i], b, byKey)) <= Need(a[..i])
    decreases i
  {
    if i > 0 {
      KeptNeed(a, i - 1, b, byKey);
      NeedMore(a, i - 1);
      KeptAdds(a, i - 1, b, byKey);
    }
  }

  /** What the pair at i does, seen from position j of the other list. */
  lemma MergeDecides(a: seq<Pair>, i: nat, b: seq<Pair>, j: nat, byKey: bool)
    requires Increasing(a) && Increasing(b) && i < |a| && AllBelow(b, j, a[i].key)
    ensures j == |b| || KeyCmp(a[i].key, b[j].key) < 0 ==> !Dropped(a[i], b, byKey)
    ensures j < |b| && KeyCmp(a[i].key, b[j].key) == 0 ==>
      (Dropped(a[i], b, byKey) <==> byKey || a[i].val == b[j].val) && AllBelow(b, j, b[j].key)
    ensures j < |b| && KeyCmp(a[i].key, b[j].key) > 0 ==> AllBelow(b, j + 1, a[i].key)
  {
    var key := a[i].key;
    if j < |b| {
      KeyCmpFlip(key, b[j].key);
      KeyCmpFlip(b[j].key, key);
      if KeyCmp(key, b[j].key) < 0 {
        AboveAlso(b, j, key);
        NotThere(b, j, key);
      } else if KeyCmp(key, b[j].key) == 0 {
        OneValue(b, j, a[i]);
      }
    } else {
      NotThere(b, j, key);
    }
  }

  lemma NextBelow(a: seq<Pair>, i: nat, b: seq<Pair>, j: nat)
    requires Increasing(a) && i + 1 < |a| && NoneAbove(b, j, a[i].key)
    ensures AllBelow(b, j, a[i + 1].key)
  {
    NextKey(b, j, a[i].key, a[i + 1].key);
  }

  lemma SameKeyPassed(a: seq<Pair>, i: nat, b: seq<Pair>, j: nat)
    requires i < |a| && j < |b| && AllBelow(b, j, a[i].key) && a[i].key == b[j].key
    ensures NoneAbove(b, j + 1, a[i].key)
  {
    KeyCmpFlip(a[i].key, b[j].key);
  }

  /** The pair at i, once it is known whether it stays. */
  method KeepOrDrop(slots: seq<Slot>, buf: string, hs: HStore, i: nat, ghost b: seq<Pair>, ghost byKey: bool,
                    keep: bool)
    returns (slots': seq<Slot>, buf': string)
    requires Shaped(hs) && hs.size <= MAX_ALLOC && i < |hs.slots|
    requires Building(slots, buf, Kept(Decode(hs)[..i], b, byKey))
    requires keep <==> !Dropped(Decode(hs)[i], b, byKey)
    ensures Building(slots', buf', Kept(Decode(hs)[..i + 1], b, byKey))
  {
    ghost var a := Decode(hs);
    StoredNeed(hs);
    KeptStep(a, i, b, byKey);
    KeptNeed(a, i, b, byKey);
    NeedMore(a, i);
    slots', buf' := slots, buf;
    if keep { slots', buf' := CopyItem(slots, buf, hs, i, Kept(a[..i], b, byKey)); }
  }

  /** The merge loop of hstore_delete_array (byKey) and hstore_delete_hstore. */
  method DeletePairs(hs: HStore, b: seq<Pair>, byKey: bool) returns (r: HStore)
    requires Valid(hs) && hs.size <= MAX_ALLOC && Increasing(b)
    ensures Shaped(r) && Decode(r) == Kept(Decode(hs), b, byKey)
  {
    ghost var a := Decode(hs);
    var slots: seq<Slot>, buf: string := [], "";
    var i, j := 0, 0;
    while i < |hs.slots|
      invariant 0 <= i <= |a| && 0 <= j <= |b|
      invariant i < |a| ==> AllBelow(b, j, a[i].key)
      invariant Building(slots, buf, Kept(a[..i], b, byKey))
      decreases |a| - i, |b| - j
    {
      var p := PairAt(hs, i);
      var difference := if j >= |b| then -1 else KeyCmp(p.key, b[j].key);
      MergeDecides(a, i, b, j, byKey);
      if difference > 0 {
        j := j + 1;
      } else {
        slots, buf := KeepOrDrop(slots, buf, hs, i, b, byKey, difference < 0 || (!byKey && p.val != b[j].val));
        if difference == 0 {
          KeyCmpFlip(p.key, b[j].key);
          SameKeyPassed(a, i, b, j);
          j := j + 1;
        }
        if i + 1 < |a| { NextBelow(a, i, b, j); }
        i := i + 1;
      }
    }
    assert a[..i] == a;
    r := Finalize(slots, buf, Kept(a, b, byKey));
  }

  /** hstore - text[]: exactly the listed keys go. */
  method HstoreDeleteArray(hs: HStore, keys: seq<string>) returns (r: HStore)
    requires Valid(hs) && hs.size <= MAX_ALLOC && Ascending(keys)
    ensures Valid(r) && (forall p :: p in Decode(r) <==> p in Decode(hs) && p.key !in keys)
    ensures Mapping(Decode(r)) == Mapping(Decode(hs)) - (set k | k in keys)
  {
    if |keys| == 0 { return hs; }
    r := DeletePairs(hs, KeyPairs(keys), true);
    KeptMeans(Decode(hs), KeyPairs(keys), true);
    forall k ensures HasKey(KeyPairs(keys), k) <==> k in keys {
      if k in keys { var i :| 0 <= i < |keys| && keys[i] == k; assert KeyPairs(keys)[i].key == k; }
    }
    DeleteIsMinus(Decode(hs), keys, Decode(r));
  }

  /** hstore - hstore: exactly the pairs that the second one has too go. */
  method HstoreDeleteHstore(hs: HStore, hs2: HStore) returns (r: HStore)
    requires Valid(hs) && Valid(hs2) && hs.size <= MAX_ALLOC
    ensures Valid(r) && forall p :: p in Decode(r) <==> p in Decode(hs) && p !in Decode(hs2)
  {
    if |hs2.slots| == 0 { return hs; }
    r := DeletePairs(hs, Decode(hs2), false);
    KeptMeans(Decode(hs), Decode(hs2), false);
  }

  // ----- concatenation -----

  /** Everything in out sorts below everything from position i of a on. */
  ghost predicate Before(out: seq<Pair>, a: seq<Pair>, i: int) {
    0 <= i <= |a| && forall x, k :: 0 <= x < |out| && i <= k < |a| ==> KeyLess(out[x].key, a[k].key)
  }

  /** What has been merged: the second value up to j, and the first up to i where the second lacks the key. */
  ghost predicate MergedTo(out: seq<Pair>, a: seq<Pair>, i: int, b: seq<Pair>, j: int) {
    0 <= i <= |a| && 0 <= j <= |b| &&
    forall p :: p in out <==> p in b[..j] || (p in a[..i] && !HasKey(b, p.key))
  }

  ghost predicate Merging(out: seq<Pair>, a: seq<Pair>, i: int, b: seq<Pair>, j: int) {
    Increasing(out) && Before(out, a, i) && Before(out, b, j) && MergedTo(out, a, i, b, j)
  }

  lemma AppendKeeps(out: seq<Pair>, p: Pair, a: seq<Pair>, i: int, i': int)
    requires Before(out, a, i) && i <= i' <= |a| && forall k :: i' <= k < |a| ==> KeyLess(p.key, a[k].key)
    ensures Before(out + [p], a, i')
  {
  }

  /** The next pair comes from the second value. */
  lemma TakeSecond(out: seq<Pair>, a: seq<Pair>, i: int, b: seq<Pair>, j: int)
    requires Increasing(a) && Increasing(b) && Merging(out, a, i, b, j) && j < |b|
    requires i < |a| ==> KeyCmp(a[i].key, b[j].key) >= 0
    ensures var i' := if i < |a| && KeyCmp(a[i].key, b[j].key) == 0 then i + 1 else i;
      Merging(out + [b[j]], a, i', b, j + 1)
  {
    var p := b[j];
    var i' := if i < |a| && KeyCmp(a[i].key, p.key) == 0 then i + 1 else i;
    if i < |a| {
      KeyCmpFlip(a[i].key, p.key);
      forall k | i' <= k < |a| ensures KeyLess(p.key, a[k].key) {
        KeyCmpFlip(p.key, a[i].key);
        if k > i { KeyLessTransitive(p.key, a[i].key, a[k].key); }
      }
    }
    AppendKeeps(out, p, a, i, i');
    AppendKeeps(out, p, b, j, j + 1);
    assert b[..j + 1] == b[..j] + [p];
    assert i' > i ==> a[..i'] == a[..i] + [a[i]] && HasKey(b, a[i].key);
  }

  /** The next pair comes from the first value, because the second does not have its key. */
  lemma TakeFirst(out: seq<Pair>, a: seq<Pair>, i: int, b: seq<Pair>, j: int)
    requires Increasing(a) && Increasing(b) && Merging(out, a, i, b, j) && i < |a|
    requires j < |b| ==> KeyCmp(a[i].key, b[j].key) < 0
    ensures Merging(out + [a[i]], a, i + 1, b, j)
  {
    var p := a[i];
    forall k | 0 <= k < j ensures KeyLess(b[k].key, p.key) {
      assert b[k] in b[..j] && b[k] in out;
      var x :| 0 <= x < |out| && out[x] == b[k];
    }
    if j < |b| {
      KeyCmpFlip(p.key, b[j].key);
      AboveAlso(b, j, p.key);
    }
    NotThere(b, j, p.key);
    AppendKeeps(out, p, a, i, i + 1);
    AppendKeeps(out, p, b, j, j);
    assert a[..i + 1] == a[..i] + [p];
  }

  /** hstore || hstore: all pairs of the second, and those of the first whose key the second lacks. */
  method HstoreConcat(s1: HStore, s2: HStore) returns (r: Packed)
    requires Valid(s1) && Valid(s2)
    ensures r == TooBig <==> s1.size + s2.size > MAX_ALLOC
    ensures r.Ok? ==> Valid(r.hs) && Mapping(Decode(r.hs)) == Mapping(Decode(s1)) + Mapping(Decode(s2))
  {
    if s1.size + s2.size > MAX_ALLOC { return TooBig; }
    if |s1.slots| == 0 { return Ok(s2); }
    if |s2.slots| == 0 { return Ok(s1); }
    r := MergeLoop(s1, s2);
    ConcatIsUnion(Decode(s1), Decode(s2), Decode(r.hs));
  }

  method MergeLoop(s1: HStore, s2: HStore) returns (r: Packed)
    requires Valid(s1) && Valid(s2) && s1.size + s2.size <= MAX_ALLOC
    ensures r.Ok? && Valid(r.hs)
    ensures forall p :: p in Decode(r.hs) <==> p in Decode(s2) || (p in Decode(s1) && !HasKey(Decode(s2), p.key))
  {
    ghost var a, b := Decode(s1), Decode(s2);
    StoredNeed(s1);
    StoredNeed(s2);
    var slots: seq<Slot>, buf: string := [], "";
    ghost var out: seq<Pair> := [];
    var i, j := 0, 0;
    while i < |s1.slots| || j < |s2.slots|
      invariant 0 <= i <= |a| && 0 <= j <= |b|
      invariant Merging(out, a, i, b, j) && Building(slots, buf, out)
      invariant Need(out) <= Need(a[..i]) + Need(b[..j])
      decreases |a| - i + |b| - j
    {
      i, j, slots, buf, out := MergeStep(s1, s2, i, j, slots, buf, out);
    }
    assert a[..i] == a && b[..j] == b;
    var hs := Finalize(slots, buf, out);
    r := Ok(hs);
  }

  /** Copy pair k of one input; its bytes still fit behind the ones merged so far. */
  method CopyNext(hs: HStore, k: int, slots: seq<Slot>, buf: string, ghost out: seq<Pair>, ghost others: nat)
    returns (slots': seq<Slot>, buf': string)
    requires Shaped(hs) && 0 <= k < |hs.slots| && Building(slots, buf, out)
    requires Need(Decode(hs)) + others < POS_MODULUS && Need(out) <= Need(Decode(hs)[..k]) + others
    ensures Building(slots', buf', out + [Decode(hs)[k]])
    ensures Need(out + [Decode(hs)[k]]) <= Need(Decode(hs)[..k + 1]) + others
  {
    NeedMore(Decode(hs), k);
    NeedAppend(out, Decode(hs)[k]);
    slots', buf' := CopyItem(slots, buf, hs, k, out);
  }

  lemma PrefixNeed(ps: seq<Pair>, i: nat)
    requires i <= |ps|
    ensures Need(ps[..i]) <= Need(ps)
  {
    BufferPrefix(ps, i);
  }

  method MergeStep(s1: HStore, s2: HStore, i: int, j: int, slots: seq<Slot>, buf: string, ghost out: seq<Pair>)
    returns (i': int, j': int, slots': seq<Slot>, buf': string, ghost out': seq<Pair>)
    requires Valid(s1) && Valid(s2) && Need(Decode(s1)) + Need(Decode(s2)) < POS_MODULUS
    requires Merging(out, Decode(s1), i, Decode(s2), j) && (i < |s1.slots| || j < |s2.slots|)
    requires Building(slots, buf, out) && Need(out) <= Need(Decode(s1)[..i]) + Need(Decode(s2)[..j])
    ensures i <= i' <= |s1.slots| && j <= j' <= |s2.slots| && i + j < i' + j'
    ensures Merging(out', Decode(s1), i', Decode(s2), j') && Building(slots', buf', out')
    ensures Need(out') <= Need(Decode(s1)[..i']) + Need(Decode(s2)[..j'])
  {
    ghost var a, b := Decode(s1), Decode(s2);
    i', j' := i, j;
    PrefixNeed(a, i);
    PrefixNeed(b, j);
    var difference :=
      if i >= |s1.slots| then 1 else if j >= |s2.slots| then -1 else KeyCmp(PairAt(s1, i).key, PairAt(s2, j).key);
    if difference >= 0 {
      slots', buf' := CopyNext(s2, j, slots, buf, out, Need(a[..i]));
      TakeSecond(out, a, i, b, j);
      out' := out + [b[j]];
      j' := j + 1;
      if difference == 0 { NeedMore(a, i); i' := i + 1; }
    } else {
      slots', buf' := CopyNext(s1, i, slots, buf, out, Need(b[..j]));
      TakeFirst(out, a, i, b, j);
      out' := out + [a[i]];
      i' := i + 1;
    }
  }
}
