/** Stored values as maps from keys to values. */
module HstoreMaps {
  import opened HstoreFormat
  import opened HstoreSearch

  function Mapping(ps: seq<Pair>): (m: map<string, Value>) {
    if ps == [] then map[] else Mapping(ps[..|ps| - 1])[ps[|ps| - 1].key := ps[|ps| - 1].val]
  }

  /** The map has exactly the keys. */
  lemma {:induction false} MappingHas(ps: seq<Pair>, k: string)
    ensures k in Mapping(ps) <==> HasKey(ps, k)
  {
    if ps != [] {
      var n := |ps| - 1;
      MappingHas(ps[..n], k);
      if HasKey(ps[..n], k) { var i :| 0 <= i < n && ps[..n][i].key == k; assert ps[i].key == k; }
      if HasKey(ps, k) { var i :| 0 <= i < |ps| && ps[i].key == k; assert i < n ==> ps[..n][i].key == k; }
    }
  }

  /** With their values. */
  lemma {:induction false} MappingGives(ps: seq<Pair>, p: Pair)
    requires Increasing(ps) && p in ps
    ensures p.key in Mapping(ps) && Mapping(ps)[p.key] == p.val
  {
    var n := |ps| - 1;
    var i :| 0 <= i < |ps| && ps[i] == p;
    if i < n {
      assert ps[..n][i] == p;
      MappingGives(ps[..n], p);
      KeyCmpFlip(p.key, p.key);
      assert KeyLess(ps[i].key, ps[n].key);
    }
  }

  lemma {:induction false} MappingFrom(ps: seq<Pair>, k: string)
    requires k in Mapping(ps)
    ensures Pair(k, Mapping(ps)[k]) in ps
  {
    var n := |ps| - 1;
    assert ps == ps[..n] + [ps[n]];
    if k != ps[n].key { MappingFrom(ps[..n], k); }
  }

  /** Concatenation is right-biased union of maps. */
  lemma ConcatIsUnion(a: seq<Pair>, b: seq<Pair>, out: seq<Pair>)
    requires Increasing(a) && Increasing(b) && Increasing(out)
    requires forall p :: p in out <==> p in b || (p in a && !HasKey(b, p.key))
    ensures Mapping(out) == Mapping(a) + Mapping(b)
  {
    var sum := Mapping(a) + Mapping(b);
    forall k | k in Mapping(out) ensures k in sum {
      MappingFrom(out, k);
      SumHas(a, b, Pair(k, Mapping(out)[k]));
    }
    forall k | k in sum ensures k in Mapping(out) && Mapping(out)[k] == sum[k] {
      SumFrom(a, b, k);
      MappingGives(out, Pair(k, sum[k]));
    }
  }

  lemma SumHas(a: seq<Pair>, b: seq<Pair>, p: Pair)
    requires Increasing(a) && Increasing(b) && (p in b || p in a)
    ensures p.key in Mapping(a) + Mapping(b)
  {
    if p in b { MappingGives(b, p); } else { MappingGives(a, p); }
  }

  lemma SumFrom(a: seq<Pair>, b: seq<Pair>, k: string)
    requires k in Mapping(a) + Mapping(b)
    ensures var p := Pair(k, (Mapping(a) + Mapping(b))[k]); p in b || (p in a && !HasKey(b, k))
  {
    MappingHas(b, k);
    if k in Mapping(b) { MappingFrom(b, k); } else { MappingFrom(a, k); }
  }

  /** Deletion of keys is subtraction of a set of keys. */
  lemma DeleteIsMinus(a: seq<Pair>, keys: seq<string>, out: seq<Pair>)
    requires Increasing(a) && Increasing(out)
    requires forall p :: p in out <==> p in a && p.key !in keys
    ensures Mapping(out) == Mapping(a) - (set k | k in keys)
  {
    var rest := Mapping(a) - (set k | k in keys);
    forall k | k in Mapping(out) ensures k in rest {
      MappingFrom(out, k);
      MappingGives(a, Pair(k, Mapping(out)[k]));
    }
    forall k | k in rest ensures k in Mapping(out) && Mapping(out)[k] == rest[k] {
      MappingFrom(a, k);
      MappingGives(out, Pair(k, rest[k]));
    }
  }
}
