/** Searching a tree of gist__intbig_ops whose page keys came about by any unions, splits and compressions. */
module IntSignSearch {
  import opened IntSign
  import opened IntSignTree
  import opened IntSignPick
  import opened GistTree
  import opened IntGist
  import P = IntSignPick

  /** The key of a page, and how it came about. */
  datatype GrownSign = GrownSign(history: P.History, key: SignKey)

  /** The array x went into the history. */
  ghost predicate Below(t: P.History, x: seq<int>)
    decreases t
  {
    match t
    case Leaf(y) => y == x
    case Above(parts, _) => exists i :: 0 <= i < |parts| && Below(parts[i], x)
    case Short(of, _) => Below(of, x)
  }

  lemma {:induction false} BelowIsHashed(t: P.History, x: seq<int>, v: int)
    requires Below(t, x) && v in x
    ensures HashedBelow(t, HashVal(v))
    decreases t
  {
    match t
    case Leaf(y) => var i :| 0 <= i < |x| && x[i] == v; assert Hashed(y, HashVal(v));
    case Above(parts, _) => var i :| 0 <= i < |parts| && Below(parts[i], x); BelowIsHashed(parts[i], x, v);
    case Short(of, _) => BelowIsHashed(of, x, v);
  }

  /** A key of any history covers every array that went into it. */
  lemma HistoryCovers(t: P.History, key: SignKey, x: seq<int>)
    requires P.Made(t, key) && Below(t, x)
    ensures Covers(key, x)
  {
    forall v | v in x ensures KeyBit(key, HashVal(v)) {
      BelowIsHashed(t, x, v);
      BitsExactly(t, key, HashVal(v));
    }
  }

  /** Every array below a page went into the history of its key. */
  ghost predicate Tracks(t: Tree<GrownSign, seq<int>>)
    decreases t
  {
    t.Page? ==>
      && P.Made(t.key.history, t.key.key)
      && (forall x :: x in StoredIn(t.kids) ==> Below(t.key.history, x))
      && (forall i :: 0 <= i < |t.kids| ==> Tracks(t.kids[i]))
  }

  lemma {:induction false} TrackedIsKept(t: Tree<GrownSign, seq<int>>)
    requires Tracks(t)
    ensures Kept(t, (g: GrownSign, x: seq<int>) => Covers(g.key, x))
    decreases t
  {
    if t.Page? {
      forall x | x in StoredIn(t.kids) ensures Covers(t.key.key, x) { HistoryCovers(t.key.history, t.key.key, x); }
      forall i | 0 <= i < |t.kids| ensures Kept(t.kids[i], (g: GrownSign, x: seq<int>) => Covers(g.key, x)) {
        TrackedIsKept(t.kids[i]);
      }
    }
  }

  /** A search finds what a scan of the stored arrays finds; test is the recheck that follows the index's answer. */
  lemma SignSearchIsScan(t: Tree<GrownSign, seq<int>>, query: seq<int>, s: Strategy, consistent: GrownSign -> bool,
                         test: seq<int> -> bool)
    requires Askable(s) && Tracks(t)
    requires forall g: GrownSign :: Valid(g.key) ==> (consistent(g) <==> SignTest(g.key, query, s, false))
    requires forall x :: test(x) <==> Matches(x, query, s)
    requires s == ContainedBy ==> forall x :: x in Stored(t) ==> x != []
    ensures Search(t, consistent, test) == Scan(Stored(t), test)
  {
    var covers := (g: GrownSign, x: seq<int>) => Covers(g.key, x);
    TrackedIsKept(t);
    forall g, x | covers(g, x) && x in Stored(t) && test(x) ensures consistent(g) {
      MatchPassesPage(g.key, x, query, s);
    }
    SearchFindsAll(t, covers, consistent, test);
  }

  // ----- the histories that the methods make -----

  function KeysAt(gs: seq<GrownSign>, offsets: seq<nat>): (ks: seq<SignKey>)
    requires forall i :: 0 <= i < |offsets| ==> offsets[i] < |gs|
    ensures |ks| == |offsets| && forall i :: 0 <= i < |offsets| ==> ks[i] == gs[offsets[i]].key
  {
    seq(|offsets|, i requires 0 <= i < |offsets| => gs[offsets[i]].key)
  }

  function HistoriesAt(gs: seq<GrownSign>, offsets: seq<nat>): (hs: seq<P.History>)
    requires forall i :: 0 <= i < |offsets| ==> offsets[i] < |gs|
    ensures |hs| == |offsets| && forall i :: 0 <= i < |offsets| ==> hs[i] == gs[offsets[i]].history
  {
    seq(|offsets|, i requires 0 <= i < |offsets| => gs[offsets[i]].history)
  }

  function KeysOf(gs: seq<GrownSign>): (ks: seq<SignKey>)
    ensures |ks| == |gs| && forall i :: 0 <= i < |gs| ==> ks[i] == gs[i].key
  {
    seq(|gs|, i requires 0 <= i < |gs| => gs[i].key)
  }

  /** A key with exactly the bits of some keys has their histories. */
  lemma SideIsMade(gs: seq<GrownSign>, side: seq<nat>, key: SignKey)
    requires P.Page(KeysOf(gs)) && (forall i :: 0 <= i < |side| ==> side[i] < |gs|) && Valid(key)
    requires forall i :: 0 <= i < |gs| ==> P.Made(gs[i].history, gs[i].key)
    requires forall h: nat :: h < SIGLENBIT ==> (KeyBit(key, h) <==> SideBit(KeysOf(gs), side, h))
    ensures P.Made(P.Above(HistoriesAt(gs, side), KeysAt(gs, side)), key)
  {
    var keys := KeysAt(gs, side);
    forall h: nat | h < SIGLENBIT ensures KeyBit(key, h) <==> SomeBit(keys, h) {
      if SideBit(KeysOf(gs), side, h) {
        var i :| 0 <= i < |side| && side[i] < |gs| && KeyBit(KeysOf(gs)[side[i]], h);
        assert KeyBit(keys[i], h);
      }
      if SomeBit(keys, h) {
        var i :| 0 <= i < |keys| && KeyBit(keys[i], h);
        assert KeyBit(KeysOf(gs)[side[i]], h);
      }
    }
  }

  /** Both sides of a split track what went into their entries, and no entry is lost. */
  lemma SplitTracks(gs: seq<GrownSign>, seed1: nat, seed2: nat, order: seq<nat>)
    requires P.Page(KeysOf(gs)) && 1 <= seed1 < seed2 < |gs| && P.Offsets(order, |gs|)
    requires forall i :: 0 <= i < |gs| ==> P.Made(gs[i].history, gs[i].key)
    ensures forall i :: 0 <= i < |order| ==> 1 <= order[i] < |gs|
    ensures var v := PlaceAll(KeysOf(gs), seed1, seed2, order);
      && (forall i :: 0 <= i < |v.left| ==> v.left[i] < |gs|) && (forall i :: 0 <= i < |v.right| ==> v.right[i] < |gs|)
      && P.Made(P.Above(HistoriesAt(gs, v.left), KeysAt(gs, v.left)), v.l)
      && P.Made(P.Above(HistoriesAt(gs, v.right), KeysAt(gs, v.right)), v.r)
      && forall j: nat :: 1 <= j < |gs| ==> (j in v.left <==> j !in v.right)
  {
    SplitKeeps(KeysOf(gs), seed1, seed2, order);
    var v := PlaceAll(KeysOf(gs), seed1, seed2, order);
    SidesInside(KeysOf(gs), seed1, seed2, order);
    SideIsMade(gs, v.left, v.l);
    SideIsMade(gs, v.right, v.r);
    forall j: nat | 1 <= j < |gs| ensures j in v.left <==> j !in v.right {
      assert multiset(v.left)[j] + multiset(v.right)[j] == 1;
      assert (j in v.left <==> j in multiset(v.left)) && (j in v.right <==> j in multiset(v.right));
    }
  }

  lemma SidesInside(entries: seq<SignKey>, seed1: nat, seed2: nat, order: seq<nat>)
    requires P.Page(entries) && 1 <= seed1 < seed2 < |entries| && forall i :: 0 <= i < |order| ==> order[i] < |entries|
    ensures var v := PlaceAll(entries, seed1, seed2, order);
      (forall i :: 0 <= i < |v.left| ==> v.left[i] < |entries|) &&
        (forall i :: 0 <= i < |v.right| ==> v.right[i] < |entries|)
  {
    PlacedOnce(entries, seed1, seed2, order);
    var v := PlaceAll(entries, seed1, seed2, order);
    forall i | 0 <= i < |v.left| ensures v.left[i] < |entries| {
      assert v.left[i] in multiset(v.left) + multiset(v.right);
      assert v.left[i] in multiset(order);
    }
    forall i | 0 <= i < |v.right| ensures v.right[i] < |entries| {
      assert v.right[i] in multiset(v.left) + multiset(v.right);
      assert v.right[i] in multiset(order);
    }
  }

  /** The union over some entries, in its short form. */
  method UnionGrows(gs: seq<GrownSign>) returns (g: GrownSign)
    requires forall i :: 0 <= i < |gs| ==> P.Made(gs[i].history, gs[i].key)
    ensures P.Made(g.history, g.key)
    ensures forall i, x :: 0 <= i < |gs| && Below(gs[i].history, x) ==> Below(g.history, x)
  {
    var keys := KeysOf(gs);
    var union := GIntBigUnion(keys);
    var short := GIntBigCompress(union);
    var parts := seq(|gs|, i requires 0 <= i < |gs| => gs[i].history);
    var above := P.Above(parts, keys);
    assert P.Made(above, union);
    g := GrownSign(P.Short(above, union), short);
    forall i, x | 0 <= i < |gs| && Below(gs[i].history, x) ensures Below(g.history, x) { assert Below(parts[i], x); }
  }
}
