/**
 The stored form of an hstore: two entries for every pair, each holding the end offset of its
 string in one buffer, with pairs in the order of (key length, key bytes).
 */
module HstoreFormat {

  /** A value, or SQL NULL. */
  datatype Value = Null | Str(s: string)

  datatype Pair = Pair(key: string, val: Value)

  // ----- key order -----

  function Memcmp(a: string, b: string): int
    requires |a| == |b|
  {
    if a == [] then 0 else if a[0] != b[0] then a[0] as int - b[0] as int else Memcmp(a[1..], b[1..])
  }

  function KeyCmp(a: string, b: string): int {
    if |a| == |b| then Memcmp(a, b) else if |a| > |b| then 1 else -1
  }

  predicate KeyLess(a: string, b: string) {
    KeyCmp(a, b) < 0
  }

  lemma {:induction false} MemcmpFlip(a: string, b: string)
    requires |a| == |b|
    ensures Memcmp(a, b) == -Memcmp(b, a)
    ensures Memcmp(a, b) == 0 <==> a == b
  {
    if a != [] && a[0] == b[0] {
      MemcmpFlip(a[1..], b[1..]);
      assert a == [a[0]] + a[1..] && b == [b[0]] + b[1..];
    }
  }

  lemma {:induction false} MemcmpTransitive(a: string, b: string, c: string)
    requires |a| == |b| == |c| && Memcmp(a, b) <= 0 && Memcmp(b, c) <= 0
    ensures Memcmp(a, c) <= 0 && (Memcmp(a, b) < 0 || Memcmp(b, c) < 0 ==> Memcmp(a, c) < 0)
  {
    if a != [] && a[0] == b[0] == c[0] { MemcmpTransitive(a[1..], b[1..], c[1..]); }
  }

  lemma KeyCmpFlip(a: string, b: string)
    ensures KeyCmp(a, b) < 0 <==> KeyCmp(b, a) > 0
    ensures KeyCmp(a, b) == 0 <==> a == b
  {
    if |a| == |b| { MemcmpFlip(a, b); }
  }

  lemma KeyLessTransitive(a: string, b: string, c: string)
    requires KeyCmp(a, b) <= 0 && KeyCmp(b, c) <= 0
    ensures KeyCmp(a, c) <= 0 && (KeyLess(a, b) || KeyLess(b, c) ==> KeyLess(a, c))
  {
    if |a| == |b| == |c| { MemcmpTransitive(a, b, c); }
  }

  /** Strictly increasing keys. */
  ghost predicate Increasing(ps: seq<Pair>) {
    forall i, j :: 0 <= i < j < |ps| ==> KeyLess(ps[i].key, ps[j].key)
  }

  // ----- stored form -----

  datatype Entry = Entry(isFirst: bool, isNull: bool, endpos: nat)

  /** The two adjacent entries of a pair: positions 2i and 2i+1 of the entry array. */
  datatype Slot = Slot(k: Entry, v: Entry)

  datatype HStore = HStore(size: nat, slots: seq<Slot>, buf: string)

  const POS_MODULUS: nat := 0x4000_0000
  const MAX_ALLOC: nat := 0x3fff_ffff

  function DataSize(count: nat, buflen: nat): nat {
    count * 2 * 4 + 8 + buflen
  }

  function Bytes(v: Value): string {
    if v.Str? then v.s else ""
  }

  /** The buffer for some pairs, and their entries before the first one is flagged. */
  function Buffer(ps: seq<Pair>): string {
    if ps == [] then "" else Buffer(ps[..|ps| - 1]) + ps[|ps| - 1].key + Bytes(ps[|ps| - 1].val)
  }

  function SlotFor(start: nat, p: Pair): Slot {
    Slot(Entry(false, false, start + |p.key|), Entry(false, p.val.Null?, start + |p.key| + |Bytes(p.val)|))
  }

  function Slots(ps: seq<Pair>): (es: seq<Slot>)
    ensures |es| == |ps|
  {
    if ps == [] then [] else Slots(ps[..|ps| - 1]) + [SlotFor(|Buffer(ps[..|ps| - 1])|, ps[|ps| - 1])]
  }

  function Flag(s: Slot, first: bool): Slot {
    Slot(s.k.(isFirst := first), s.v)
  }

  function Flagged(es: seq<Slot>): (r: seq<Slot>)
    ensures |r| == |es| && forall i :: 0 <= i < |es| ==> r[i] == if i == 0 then Flag(es[i], true) else es[i]
  {
    if es == [] then [] else [Flag(es[0], true)] + es[1..]
  }

  function Encode(ps: seq<Pair>): HStore {
    HStore(DataSize(|ps|, |Buffer(ps)|), Flagged(Slots(ps)), Buffer(ps))
  }

  // ----- reading it -----

  /** Where the string of a key entry starts: at 0 if it is flagged, else where the entry before it ends. */
  function KeyOff(hs: HStore, i: nat): nat
    requires i < |hs.slots| && (hs.slots[i].k.isFirst || i > 0)
  {
    if hs.slots[i].k.isFirst then 0 else hs.slots[i - 1].v.endpos
  }

  ghost predicate SlotShaped(hs: HStore, i: nat)
    requires i < |hs.slots|
  {
    var s := hs.slots[i];
    && (s.k.isFirst <==> i == 0) && !s.v.isFirst && !s.k.isNull
    && KeyOff(hs, i) <= s.k.endpos <= s.v.endpos <= |hs.buf|
    && (s.v.isNull ==> s.v.endpos == s.k.endpos)
  }

  /** End offsets that never decrease, a first flag on entry 0 only, the exact size. */
  ghost predicate Shaped(hs: HStore) {
    && (forall i :: 0 <= i < |hs.slots| ==> SlotShaped(hs, i))
    && |hs.buf| == (if hs.slots == [] then 0 else hs.slots[|hs.slots| - 1].v.endpos)
    && hs.size == DataSize(|hs.slots|, |hs.buf|)
  }

  function PairAt(hs: HStore, i: nat): Pair
    requires i < |hs.slots| && SlotShaped(hs, i)
  {
    var s := hs.slots[i];
    Pair(hs.buf[KeyOff(hs, i)..s.k.endpos], if s.v.isNull then Null else Str(hs.buf[s.k.endpos..s.v.endpos]))
  }

  function Decode(hs: HStore): (ps: seq<Pair>)
    requires Shaped(hs)
    ensures |ps| == |hs.slots| && forall i :: 0 <= i < |ps| ==> ps[i] == PairAt(hs, i)
  {
    seq(|hs.slots|, i requires 0 <= i < |hs.slots| => PairAt(hs, i))
  }

  /** A stored value: well-shaped, with strictly sorted keys. */
  ghost predicate Valid(hs: HStore) {
    Shaped(hs) && Increasing(Decode(hs))
  }

  // ----- what is where -----

  lemma {:induction false} BufferPrefix(ps: seq<Pair>, i: nat)
    requires i <= |ps|
    ensures Buffer(ps[..i]) <= Buffer(ps)
    decreases |ps| - i
  {
    if i < |ps| {
      BufferPrefix(ps, i + 1);
      assert ps[..i + 1][..i] == ps[..i];
    } else {
      assert ps[..i] == ps;
    }
  }

  lemma {:induction false} SlotAt(ps: seq<Pair>, i: nat)
    requires i < |ps|
    ensures Slots(ps)[i] == SlotFor(|Buffer(ps[..i])|, ps[i])
    ensures Slots(ps)[i].v.endpos == |Buffer(ps[..i + 1])|
    decreases |ps|
  {
    var front := ps[..|ps| - 1];
    if i < |ps| - 1 {
      SlotAt(front, i);
      assert front[..i] == ps[..i] && front[..i + 1] == ps[..i + 1];
    } else {
      assert ps[..i + 1] == ps;
    }
  }

  /** The strings of pair i sit between the ends of the buffers of its neighbours. */
  lemma BufferAt(ps: seq<Pair>, i: nat)
    requires i < |ps|
    ensures var o := |Buffer(ps[..i])|; var p := ps[i];
      && o + |p.key| + |Bytes(p.val)| == |Buffer(ps[..i + 1])| <= |Buffer(ps)|
      && Buffer(ps)[o..o + |p.key|] == p.key
      && Buffer(ps)[o + |p.key|..o + |p.key| + |Bytes(p.val)|] == Bytes(p.val)
  {
    var o, p := |Buffer(ps[..i])|, ps[i];
    assert ps[..i + 1][..i] == ps[..i];
    BufferPrefix(ps, i + 1);
    var b, all := Buffer(ps[..i + 1]), Buffer(ps);
    assert b == Buffer(ps[..i]) + p.key + Bytes(p.val);
    assert all[..|b|] == b;
    assert all[o..o + |p.key|] == b[o..o + |p.key|] == p.key;
    assert all[o + |p.key|..|b|] == b[o + |p.key|..] == Bytes(p.val);
  }

  lemma EncodedSlot(ps: seq<Pair>, i: nat)
    requires i < |ps|
    ensures var hs := Encode(ps); var o := |Buffer(ps[..i])|;
      && hs.slots[i] == Flag(SlotFor(o, ps[i]), i == 0)
      && (i > 0 ==> hs.slots[i - 1].v.endpos == o) && (i == 0 ==> o == 0)
  {
    SlotAt(ps, i);
    if i > 0 { SlotAt(ps, i - 1); } else { assert ps[..0] == []; }
  }

  lemma EncodedPair(ps: seq<Pair>, i: nat)
    requires i < |ps|
    ensures SlotShaped(Encode(ps), i) && PairAt(Encode(ps), i) == ps[i]
  {
    var hs, o := Encode(ps), |Buffer(ps[..i])|;
    EncodedSlot(ps, i);
    BufferAt(ps, i);
    assert KeyOff(hs, i) == o;
    assert hs.slots[i].k.endpos == o + |ps[i].key|;
  }

  /** Encoding keeps the pairs. */
  lemma DecodeEncode(ps: seq<Pair>)
    ensures Shaped(Encode(ps)) && Decode(Encode(ps)) == ps
  {
    var hs := Encode(ps);
    forall i | 0 <= i < |ps| ensures SlotShaped(hs, i) && PairAt(hs, i) == ps[i] { EncodedPair(ps, i); }
    assert ps[..|ps|] == ps;
    if ps != [] { SlotAt(ps, |ps| - 1); }
  }

  function EndOf(hs: HStore, i: nat): nat
    requires i <= |hs.slots|
  {
    if i == 0 then 0 else hs.slots[i - 1].v.endpos
  }

  /** One pair of a stored value: its strings lie next to each other. */
  lemma DecodedPair(hs: HStore, i: nat)
    requires Shaped(hs) && i < |hs.slots|
    ensures EndOf(hs, i) <= EndOf(hs, i + 1) <= |hs.buf|
    ensures var p := PairAt(hs, i); hs.buf[..EndOf(hs, i + 1)] == hs.buf[..EndOf(hs, i)] + p.key + Bytes(p.val)
    ensures SlotFor(EndOf(hs, i), PairAt(hs, i)) == Flag(hs.slots[i], false)
  {
    assert SlotShaped(hs, i);
    var p, s, e0 := PairAt(hs, i), hs.slots[i], EndOf(hs, i);
    assert KeyOff(hs, i) == e0;
    assert Bytes(p.val) == hs.buf[s.k.endpos..s.v.endpos];
  }

  lemma {:induction false} DecodedBuffer(hs: HStore, ps: seq<Pair>, i: nat)
    requires Shaped(hs) && ps == Decode(hs) && i <= |ps|
    ensures EndOf(hs, i) <= |hs.buf| && Buffer(ps[..i]) == hs.buf[..EndOf(hs, i)]
    decreases i
  {
    if i > 0 {
      DecodedBuffer(hs, ps, i - 1);
      DecodedPair(hs, i - 1);
      assert ps[..i][..i - 1] == ps[..i - 1] && ps[..i][i - 1] == PairAt(hs, i - 1);
    }
  }

  lemma DecodedSlot(hs: HStore, ps: seq<Pair>, i: nat)
    requires Shaped(hs) && ps == Decode(hs) && i < |ps|
    ensures Slots(ps)[i] == Flag(hs.slots[i], false)
  {
    DecodedBuffer(hs, ps, i);
    DecodedPair(hs, i);
    SlotAt(ps, i);
  }

  /** Encoding what was read gives the same stored value, byte for byte. */
  lemma EncodeDecode(hs: HStore)
    requires Shaped(hs)
    ensures Encode(Decode(hs)) == hs
  {
    var ps := Decode(hs);
    DecodedBuffer(hs, ps, |ps|);
    assert ps[..|ps|] == ps;
    assert hs.buf[..|hs.buf|] == hs.buf;
    forall i | 0 <= i < |ps| ensures Flagged(Slots(ps))[i] == hs.slots[i] {
      DecodedSlot(hs, ps, i);
      assert SlotShaped(hs, i);
    }
  }

  // ----- packing -----

  datatype Packed = Ok(hs: HStore) | TooBig

  /** One pair into a value under construction; end offsets are masked to 30 bits. */
  method AddItem(slots: seq<Slot>, buf: string, p: Pair) returns (slots': seq<Slot>, buf': string)
    requires |buf| + |p.key| + |Bytes(p.val)| < POS_MODULUS
    ensures slots' == slots + [SlotFor(|buf|, p)] && buf' == buf + p.key + Bytes(p.val)
  {
    buf' := buf + p.key;
    var k := Entry(false, false, |buf'| % POS_MODULUS);
    if p.val.Null? {
      slots' := slots + [Slot(k, Entry(false, true, |buf'| % POS_MODULUS))];
    } else {
      buf' := buf' + p.val.s;
      slots' := slots + [Slot(k, Entry(false, false, |buf'| % POS_MODULUS))];
    }
  }

  method PackPairs(pairs: seq<Pair>) returns (r: Packed)
    ensures r == if DataSize(|pairs|, |Buffer(pairs)|) <= MAX_ALLOC then Ok(Encode(pairs)) else TooBig
  {
    var buflen := BufferLength(pairs);
    if DataSize(|pairs|, buflen) > MAX_ALLOC { return TooBig; }
    var slots: seq<Slot> := [];
    var buf := "";
    for i := 0 to |pairs|
      invariant buf == Buffer(pairs[..i]) && slots == Slots(pairs[..i])
    {
      assert pairs[..i + 1][..i] == pairs[..i];
      BufferAt(pairs, i);
      slots, buf := AddItem(slots, buf, pairs[i]);
    }
    assert pairs[..|pairs|] == pairs;
    if |pairs| > 0 { slots := slots[0 := Flag(slots[0], true)]; }
    r := Ok(HStore(DataSize(|pairs|, |buf|), slots, buf));
  }

  method BufferLength(pairs: seq<Pair>) returns (n: nat)
    ensures n == |Buffer(pairs)|
  {
    n := 0;
    for i := 0 to |pairs|
      invariant n == |Buffer(pairs[..i])|
    {
      assert pairs[..i + 1][..i] == pairs[..i];
      n := n + |pairs[i].key| + if pairs[i].val.Null? then 0 else |pairs[i].val.s|;
    }
    assert pairs[..|pairs|] == pairs;
  }
}
