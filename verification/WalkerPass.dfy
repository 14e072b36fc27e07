/** The first pass as it runs: mutable fields, and lists that share their cells. */
module WalkerPass {
  import opened Sql
  import opened Completions
  import opened TrueVar
  import opened ListCells
  import opened Walker
  import opened SharedLists
  import Mutator

  // ----- the stored lists -----

  /** The lists that begin at heads, all in cells younger than n. */
  ghost predicate Hold(cells: seq<Cell>, n: nat, heads: seq<int>, lists: seq<seq<Attr>>) {
    && Heap(cells) && |heads| == |lists|
    && forall i :: 0 <= i < |heads| ==> HoldsAt(cells, n, heads[i], lists[i])
  }

  ghost predicate HoldsAt(cells: seq<Cell>, n: nat, h: int, list: seq<Attr>)
    requires Heap(cells)
  {
    (h == -1 || n <= h < |cells|) && -1 <= h && Read(cells, h) == list
  }

  function Mine(b: Acc, want: bool): Ref {
    if want then b.t else b.f
  }

  ghost predicate EndsWith(b: Acc, h: int, r: Ref)
    requires Heap(b.cells)
  {
    0 <= h < |b.cells| && r.Ref? && End(b.cells, h) == r.tail
  }

  ghost predicate FollowsAt(b: Acc, want: bool, h: int, f: Fate)
    requires Heap(b.cells)
  {
    match f
    case Same => EndsWith(b, h, Mine(b, want))
    case Other => EndsWith(b, h, Mine(b, !want))
    case Closed => !EndsWith(b, h, b.t) && !EndsWith(b, h, b.f)
  }

  ghost predicate Follow(b: Acc, want: bool, heads: seq<int>, fs: seq<Fate>) {
    Heap(b.cells) && |fs| == |heads| && forall i :: 0 <= i < |heads| ==> FollowsAt(b, want, heads[i], fs[i])
  }

  /** The lists of the nodes of c have been stored behind those stored before, and are where the walk has got to. */
  ghost predicate Recorded(cat: Catalog, chain: Chain, want: bool, c: Cond, n: nat, b: Acc, before: seq<int>,
                           heads: seq<int>)
    requires WellScoped(cat, chain, c)
  {
    && before <= heads
    && Hold(b.cells, n, heads[|before|..], Shared(cat, chain, want, c, [], []))
    && Follow(b, want, heads[|before|..], Fates(cat, chain, want, c))
  }

  /** While the next conditions are walked, a list grows with the accumulator it ends in. */
  lemma HeldGrows(b: Acc, b': Acc, want: bool, n: nat, h: int, l: seq<Attr>, f: Fate, x: seq<Attr>, y: seq<Attr>)
    requires Grew(b, b', x, y) && n <= |b.cells| && HoldsAt(b.cells, n, h, l) && FollowsAt(b, want, h, f)
    ensures HoldsAt(b'.cells, n, h, l + After(f, if want then x else y, if want then y else x))
  {
    if h >= 0 {
      assert GrewAt(b, b', x, y, h);
    } else {
      assert f == Closed;
      assert l == [] && l + [] == [];
    }
  }

  lemma HoldGrows(cat: Catalog, chain: Chain, want: bool, c: Cond, b: Acc, b': Acc, n: nat, heads: seq<int>,
                  x: seq<Attr>, y: seq<Attr>)
    requires WellScoped(cat, chain, c) && Grew(b, b', x, y) && n <= |b.cells|
    requires Hold(b.cells, n, heads, Shared(cat, chain, want, c, [], []))
    requires Follow(b, want, heads, Fates(cat, chain, want, c))
    ensures Hold(b'.cells, n, heads, Shared(cat, chain, want, c, if want then x else y, if want then y else x))
  {
    var same, other := if want then x else y, if want then y else x;
    SharedByFate(cat, chain, want, c, same, other);
    forall i | 0 <= i < |heads| ensures HoldsAt(b'.cells, n, heads[i], Shared(cat, chain, want, c, same, other)[i]) {
      HeldGrows(b, b', want, n, heads[i], Shared(cat, chain, want, c, [], [])[i], Fates(cat, chain, want, c)[i], x, y);
    }
  }

  lemma HoldConcat(cells: seq<Cell>, n: nat, n': nat, h: seq<int>, h': seq<int>, l: seq<seq<Attr>>, l': seq<seq<Attr>>)
    requires Hold(cells, n, h, l) && Hold(cells, n', h', l') && n <= n'
    ensures Hold(cells, n, h + h', l + l')
  {
    forall i | 0 <= i < |h + h'| ensures HoldsAt(cells, n, (h + h')[i], (l + l')[i]) {
      if i >= |h| { assert HoldsAt(cells, n', h'[i - |h|], l'[i - |h|]); }
    }
  }

  lemma HoldKept(cells: seq<Cell>, cells': seq<Cell>, n: nat, heads: seq<int>, lists: seq<seq<Attr>>)
    requires Hold(cells, n, heads, lists) && Heap(cells') && |cells| <= |cells'|
    requires forall k :: n <= k < |cells| ==> Read(cells', k) == Read(cells, k)
    ensures Hold(cells', n, heads, lists)
  {
    forall i | 0 <= i < |heads| ensures HoldsAt(cells', n, heads[i], lists[i]) {
      assert HoldsAt(cells, n, heads[i], lists[i]);
    }
  }

  // ----- NOT -----

  lemma NotFollows(a: Acc, b0: Acc, b: Acc, want: bool, h: int, f: Fate)
    requires Ok(a) && Ok(b0) && Untouched(b0.cells, b.cells, |a.cells|) && |a.cells| <= |b0.cells|
    requires b.t == Concat(a.t, b0.f) && b.f == Concat(a.f, b0.t)
    requires (h == -1 || h >= |a.cells|) && FollowsAt(b0, want, h, f)
    ensures FollowsAt(b, want, h, if f.Same? then Other else if f.Other? then Same else Closed)
  {
  }

  /** The accumulators go back swapped, and with them the lists that end in them. */
  lemma NotRecorded(cat: Catalog, chain: Chain, want: bool, x: Cond, a: Acc, b0: Acc, b: Acc, before: seq<int>,
                    heads: seq<int>)
    requires WellScoped(cat, chain, x) && Ok(a) && Ok(b0) && |a.cells| <= |b0.cells|
    requires Untouched(b0.cells, b.cells, |a.cells|) && b.t == Concat(a.t, b0.f) && b.f == Concat(a.f, b0.t)
    requires Recorded(cat, chain, want, x, |a.cells|, b0, before, heads)
    ensures Recorded(cat, chain, want, Not(x), |a.cells|, b, before, heads)
  {
    var hs, fs := heads[|before|..], Fates(cat, chain, want, x);
    HoldKept(b0.cells, b.cells, |a.cells|, hs, Shared(cat, chain, want, x, [], []));
    forall i | 0 <= i < |hs| ensures FollowsAt(b, want, hs[i], Flip(fs)[i]) {
      assert HoldsAt(b0.cells, |a.cells|, hs[i], Shared(cat, chain, want, x, [], [])[i]);
      NotFollows(a, b0, b, want, hs[i], fs[i]);
    }
  }

  // ----- AND and OR -----

  lemma ClosedFollows(cells0: seq<Cell>, cells: seq<Cell>, b: Acc, n: nat, h: int, l: seq<Attr>)
    requires Heap(cells0) && HoldsAt(cells0, n, h, l) && Extends(cells0, cells) && Untouched(cells, b.cells, n)
    requires b.t.Ref? ==> b.t.tail < n || b.t.tail >= |cells0|
    requires b.f.Ref? ==> b.f.tail < n || b.f.tail >= |cells0|
    ensures !EndsWith(b, h, b.t) && !EndsWith(b, h, b.f)
  {
  }

  /** A list that is stored and appended ends where the accumulator ends, an empty one nowhere. */
  lemma NodeFollows(a: Acc, cells: seq<Cell>, b: Acc, want: bool, u: Ref, l: seq<Attr>)
    requires Ok(a) && Ok(b) && |a.cells| <= |cells| && Untouched(cells, b.cells, |a.cells|)
    requires Young(cells, |a.cells|, u) && Contents(cells, u) == l && Mine(b, want) == Concat(Mine(a, want), u)
    ensures HoldsAt(b.cells, |a.cells|, HeadOf(u), l)
    ensures FollowsAt(b, want, HeadOf(u), if l == [] then Closed else Same)
  {
  }

  lemma FollowSnoc(b: Acc, want: bool, heads: seq<int>, h: int, fs: seq<Fate>, f: Fate)
    requires Follow(b, want, heads, fs) && FollowsAt(b, want, h, f)
    ensures Follow(b, want, heads + [h], fs + [f])
  {
  }

  /** The lists of the arguments stay as they are from now on. */
  lemma ArgumentsClosed(cat: Catalog, chain: Chain, want: bool, cs: seq<Cond>, n: nat, cells0: seq<Cell>,
                        cells: seq<Cell>,
                        b: Acc, hs: seq<int>)
    requires forall i :: 0 <= i < |cs| ==> WellScoped(cat, chain, cs[i])
    requires Hold(cells0, n, hs, SharedOf(cat, chain, want, cs)) && n <= |cells0|
    requires Extends(cells0, cells) && Untouched(cells, b.cells, n)
    requires b.t.Ref? ==> b.t.tail < n || b.t.tail >= |cells0|
    requires b.f.Ref? ==> b.f.tail < n || b.f.tail >= |cells0|
    ensures Hold(b.cells, n, hs, SharedOf(cat, chain, want, cs))
    ensures Follow(b, want, hs, AllClosed(Mutator.JunctionsOf(cs)))
  {
    var lists := SharedOf(cat, chain, want, cs);
    SharedOfCount(cat, chain, want, cs);
    HoldKept(cells0, cells, n, hs, lists);
    HoldKept(cells, b.cells, n, hs, lists);
    forall i | 0 <= i < |hs| ensures FollowsAt(b, want, hs[i], Closed) {
      ClosedFollows(cells0, cells, b, n, hs[i], lists[i]);
    }
  }

  lemma NodeRecorded(cat: Catalog, chain: Chain, want: bool, c: Cond, cs: seq<Cond>, n: nat, b: Acc, before: seq<int>,
                     inner: seq<int>, h: int)
    requires WellScoped(cat, chain, c) && (c == And(cs) || c == Or(cs)) && before <= inner
    requires Hold(b.cells, n, inner[|before|..] + [h], SharedOf(cat, chain, want, cs) + [Needed(cat, chain, want, c)])
    requires Follow(b, want, inner[|before|..] + [h], AllClosed(Mutator.JunctionsOf(cs)) +
      [if Needed(cat, chain, want, c) == [] then Closed else Same])
    ensures Recorded(cat, chain, want, c, n, b, before, inner + [h])
  {
    assert (inner + [h])[|before|..] == inner[|before|..] + [h];
    assert Grown(Needed(cat, chain, want, c), []) == Needed(cat, chain, want, c);
  }

  /** The lists of the arguments are complete, the list of the node is stored behind them. */
  lemma JunctionRecorded(cat: Catalog, chain: Chain, want: bool, c: Cond, cs: seq<Cond>, a: Acc, cells0: seq<Cell>,
                         cells: seq<Cell>, b: Acc, u: Ref, before: seq<int>, inner: seq<int>)
    requires WellScoped(cat, chain, c) && (c == And(cs) || c == Or(cs)) && Ok(a) && Ok(b) && before <= inner
    requires Hold(cells0, |a.cells|, inner[|before|..], SharedOf(cat, chain, want, cs))
    requires |a.cells| <= |cells0| && Extends(cells0, cells) && Untouched(cells, b.cells, |a.cells|)
    requires Young(cells, |a.cells|, u) && Contents(cells, u) == Needed(cat, chain, want, c)
    requires Mine(b, want) == Concat(Mine(a, want), u)
    requires b.t.Ref? ==> b.t.tail < |a.cells| || b.t.tail >= |cells0|
    requires b.f.Ref? ==> b.f.tail < |a.cells| || b.f.tail >= |cells0|
    ensures Recorded(cat, chain, want, c, |a.cells|, b, before, inner + [HeadOf(u)])
  {
    var n, hs, needed := |a.cells|, inner[|before|..], Needed(cat, chain, want, c);
    ArgumentsClosed(cat, chain, want, cs, n, cells0, cells, b, hs);
    NodeFollows(a, cells, b, want, u, needed);
    HoldConcat(b.cells, n, n, hs, [HeadOf(u)], SharedOf(cat, chain, want, cs), [needed]);
    FollowSnoc(b, want, hs, HeadOf(u), AllClosed(Mutator.JunctionsOf(cs)), if needed == [] then Closed else Same);
    NodeRecorded(cat, chain, want, c, cs, n, b, before, inner, HeadOf(u));
  }

  // ----- the schema list -----

  predicate ReadsFrom(c: Cond, rel: nat) {
    match c
    case And(cs) => exists i :: 0 <= i < |cs| && ReadsFrom(cs[i], rel)
    case Or(cs) => exists i :: 0 <= i < |cs| && ReadsFrom(cs[i], rel)
    case Not(a) => ReadsFrom(a, rel)
    case Exists(rels, q) => rel in rels || ReadsFrom(q, rel)
    case _ => false
  }

  /** The NOT NULL columns of the relations that c reads from have been added. */
  ghost predicate SchemaOf(cat: Catalog, before: seq<Attr>, after: seq<Attr>, c: Cond) {
    forall a :: a in after <==> a in before || Declares(cat, c, a)
  }

  predicate Declares(cat: Catalog, c: Cond, a: Attr) {
    a in cat.notNull && 1 <= a.attno <= Natts(cat, a.relid) && ReadsFrom(c, a.relid)
  }

  lemma ReadsFromArgs(cs: seq<Cond>, rel: nat)
    requires cs != []
    ensures ReadsFrom(And(cs), rel) <==> ReadsFrom(cs[0], rel) || ReadsFrom(And(cs[1..]), rel)
  {
    if ReadsFrom(And(cs), rel) {
      var i :| 0 <= i < |cs| && ReadsFrom(cs[i], rel);
      if i > 0 { assert cs[1..][i - 1] == cs[i]; }
    }
    if ReadsFrom(And(cs[1..]), rel) {
      var i :| 0 <= i < |cs[1..]| && ReadsFrom(cs[1..][i], rel);
      assert cs[i + 1] == cs[1..][i];
    }
  }

  lemma SchemaOfArgs(cat: Catalog, a: seq<Attr>, b: seq<Attr>, c: seq<Attr>, cs: seq<Cond>)
    requires cs != [] && SchemaOf(cat, a, b, cs[0]) && SchemaOf(cat, b, c, And(cs[1..]))
    ensures SchemaOf(cat, a, c, And(cs))
  {
    forall x: Attr ensures Declares(cat, And(cs), x) <==> Declares(cat, cs[0], x) || Declares(cat, And(cs[1..]), x) {
      ReadsFromArgs(cs, x.relid);
    }
  }

  lemma SchemaOfNode(cat: Catalog, a: seq<Attr>, b: seq<Attr>, c: Cond, d: Cond)
    requires SchemaOf(cat, a, b, c) && (d == Not(c) || (c.And? && d == Or(c.args)))
    ensures SchemaOf(cat, a, b, d)
  {
    assert forall x :: Declares(cat, c, x) <==> Declares(cat, d, x);
  }

  lemma SchemaOfQuery(cat: Catalog, a: seq<Attr>, b: seq<Attr>, c: seq<Attr>, rels: seq<nat>, q: Cond)
    requires SchemaOf(cat, a, b, Exists(rels, Absent)) && SchemaOf(cat, b, c, q)
    ensures SchemaOf(cat, a, c, Exists(rels, q))
  {
    forall x: Attr
      ensures Declares(cat, Exists(rels, q), x) <==> Declares(cat, Exists(rels, Absent), x) || Declares(cat, q, x)
    {
      assert !ReadsFrom(Absent, x.relid);
    }
  }

  lemma SchemaOfNothing(cat: Catalog, a: seq<Attr>)
    ensures SchemaOf(cat, a, a, Exists([], Absent)) && SchemaOf(cat, a, a, And([]))
  {
    forall x: Attr ensures !Declares(cat, Exists([], Absent), x) { assert !ReadsFrom(Absent, x.relid); }
  }

  lemma SchemaOfRelation(cat: Catalog, a: seq<Attr>, b: seq<Attr>, c: seq<Attr>, rels: seq<nat>, rel: nat)
    requires SchemaOf(cat, a, b, Exists(rels, Absent))
    requires forall x :: x in c <==> x in b || (x in Columns(cat, rel) && x in cat.notNull)
    ensures SchemaOf(cat, a, c, Exists(rels + [rel], Absent))
  {
    forall x ensures x in Columns(cat, rel) <==> x.relid == rel && 1 <= x.attno <= Natts(cat, rel) {
      if x.relid == rel && 1 <= x.attno <= Natts(cat, rel) { assert Columns(cat, rel)[x.attno - 1] == x; }
    }
    assert forall x :: Declares(cat, Exists(rels + [rel], Absent), x) <==>
      Declares(cat, Exists(rels, Absent), x) || (x in Columns(cat, rel) && x in cat.notNull);
  }

  // ----- what one walk does -----

  ghost predicate Walked(cat: Catalog, chain: Chain, c: Cond, a: Acc, b: Acc, lt: seq<int>, lt': seq<int>, lf: seq<int>,
                         lf': seq<int>)
    requires WellScoped(cat, chain, c)
  {
    && Grew(a, b, Needed(cat, chain, true, c), Needed(cat, chain, false, c))
    && Recorded(cat, chain, true, c, |a.cells|, b, lt, lt')
    && Recorded(cat, chain, false, c, |a.cells|, b, lf, lf')
  }

  ghost predicate WalkedArgs(cat: Catalog, chain: Chain, cs: seq<Cond>, a: Acc, b: Acc, lt: seq<int>, lt': seq<int>,
                             lf: seq<int>, lf': seq<int>)
    requires forall i :: 0 <= i < |cs| ==> WellScoped(cat, chain, cs[i])
  {
    && Grew(a, b, Needs(cat, chain, true, cs), Needs(cat, chain, false, cs))
    && lt <= lt' && Hold(b.cells, |a.cells|, lt'[|lt|..], SharedOf(cat, chain, true, cs))
    && lf <= lf' && Hold(b.cells, |a.cells|, lf'[|lf|..], SharedOf(cat, chain, false, cs))
  }

  /** What was appended is exactly what c demands. */
  ghost predicate Appends(cat: Catalog, chain: Chain, c: Cond, a: Acc, b: Acc)
    requires WellScoped(cat, chain, c) && Ok(a) && Ok(b)
  {
    AppendsTo(cat, chain, true, c, Contents(a.cells, a.t), Contents(b.cells, b.t)) &&
    AppendsTo(cat, chain, false, c, Contents(a.cells, a.f), Contents(b.cells, b.f))
  }

  ghost predicate AppendsTo(cat: Catalog, chain: Chain, want: bool, c: Cond, l: seq<Attr>, l': seq<Attr>)
    requires WellScoped(cat, chain, c)
  {
    l <= l' && forall a :: a in l'[|l|..] <==> Demands(cat, chain, want, c, a)
  }

  lemma WalkedAppends(cat: Catalog, chain: Chain, c: Cond, a: Acc, b: Acc)
    requires WellScoped(cat, chain, c) && Grew(a, b, Needed(cat, chain, true, c), Needed(cat, chain, false, c))
    ensures Appends(cat, chain, c, a, b)
  {
    forall x
      ensures x in Needed(cat, chain, true, c) <==> Demands(cat, chain, true, c, x)
      ensures x in Needed(cat, chain, false, c) <==> Demands(cat, chain, false, c, x)
    {
      NeededExactly(cat, chain, true, c, x);
      NeededExactly(cat, chain, false, c, x);
    }
  }

  /** The list stored last is that of c, and holds exactly what c demands. */
  ghost predicate Stores(cat: Catalog, chain: Chain, want: bool, c: Cond, cells: seq<Cell>, heads: seq<int>)
    requires WellScoped(cat, chain, c) && Heap(cells)
  {
    heads != [] && -1 <= heads[|heads| - 1] < |cells| &&
    forall a :: a in Read(cells, heads[|heads| - 1]) <==> Demands(cat, chain, want, c, a)
  }

  lemma RecordedStores(cat: Catalog, chain: Chain, want: bool, c: Cond, n: nat, b: Acc, before: seq<int>,
                       heads: seq<int>)
    requires WellScoped(cat, chain, c) && (c.And? || c.Or?) && Recorded(cat, chain, want, c, n, b, before, heads)
    ensures Stores(cat, chain, want, c, b.cells, heads)
  {
    var lists, mine := Shared(cat, chain, want, c, [], []), heads[|before|..];
    assert lists[|lists| - 1] == Grown(Needed(cat, chain, want, c), []) == Needed(cat, chain, want, c);
    assert HoldsAt(b.cells, n, mine[|mine| - 1], lists[|lists| - 1]);
    assert mine[|mine| - 1] == heads[|heads| - 1];
    forall a ensures a in Needed(cat, chain, want, c) <==> Demands(cat, chain, want, c, a) {
      NeededExactly(cat, chain, want, c, a);
    }
  }

  /** The lists of a node, as appended and as stored. */
  ghost predicate Exact(cat: Catalog, chain: Chain, c: Cond, a: Acc, b: Acc, lt: seq<int>, lf: seq<int>)
    requires WellScoped(cat, chain, c)
  {
    && Ok(a) && Ok(b) && Appends(cat, chain, c, a, b)
    && Stores(cat, chain, true, c, b.cells, lt) && Stores(cat, chain, false, c, b.cells, lf)
  }

  lemma WalkedExactly(cat: Catalog, chain: Chain, c: Cond, a: Acc, b: Acc, lt: seq<int>, lt': seq<int>, lf: seq<int>,
                      lf': seq<int>)
    requires WellScoped(cat, chain, c) && (c.And? || c.Or?) && Walked(cat, chain, c, a, b, lt, lt', lf, lf')
    ensures Exact(cat, chain, c, a, b, lt', lf')
  {
    WalkedAppends(cat, chain, c, a, b);
    RecordedStores(cat, chain, true, c, |a.cells|, b, lt, lt');
    RecordedStores(cat, chain, false, c, |a.cells|, b, lf, lf');
  }

  lemma NoNodes(cat: Catalog, chain: Chain, c: Cond, a: Acc, b: Acc, lt: seq<int>, lf: seq<int>)
    requires WellScoped(cat, chain, c) && (c.Absent? || c.Compare?)
    requires Grew(a, b, Needed(cat, chain, true, c), Needed(cat, chain, false, c))
    ensures Walked(cat, chain, c, a, b, lt, lt, lf, lf)
  {
  }

  lemma OneMoreHeld(cat: Catalog, chain: Chain, want: bool, cs: seq<Cond>, a: Acc, b1: Acc, b: Acc,
                    l: seq<int>, l1: seq<int>, l': seq<int>, x: seq<Attr>, y: seq<Attr>)
    requires cs != [] && forall i :: 0 <= i < |cs| ==> WellScoped(cat, chain, cs[i])
    requires |a.cells| <= |b1.cells| && Grew(b1, b, x, y)
    requires x == Needs(cat, chain, true, cs[1..]) && y == Needs(cat, chain, false, cs[1..])
    requires Recorded(cat, chain, want, cs[0], |a.cells|, b1, l, l1)
    requires l1 <= l' && Hold(b.cells, |b1.cells|, l'[|l1|..], SharedOf(cat, chain, want, cs[1..]))
    ensures l <= l' && Hold(b.cells, |a.cells|, l'[|l|..], SharedOf(cat, chain, want, cs))
  {
    HoldGrows(cat, chain, want, cs[0], b1, b, |a.cells|, l1[|l|..], x, y);
    HoldConcat(b.cells, |a.cells|, |b1.cells|, l1[|l|..], l'[|l1|..],
               Shared(cat, chain, want, cs[0], Needs(cat, chain, want, cs[1..]), Needs(cat, chain, !want, cs[1..])),
               SharedOf(cat, chain, want, cs[1..]));
    assert l'[|l|..] == l1[|l|..] + l'[|l1|..];
  }

  lemma OneMoreWalked(cat: Catalog, chain: Chain, cs: seq<Cond>, a: Acc, b1: Acc, b: Acc, lt: seq<int>, lt1: seq<int>,
                      lt': seq<int>, lf: seq<int>, lf1: seq<int>, lf': seq<int>)
    requires cs != [] && forall i :: 0 <= i < |cs| ==> WellScoped(cat, chain, cs[i])
    requires Walked(cat, chain, cs[0], a, b1, lt, lt1, lf, lf1)
    requires WalkedArgs(cat, chain, cs[1..], b1, b, lt1, lt', lf1, lf')
    ensures WalkedArgs(cat, chain, cs, a, b, lt, lt', lf, lf')
  {
    var x, y := Needs(cat, chain, true, cs[1..]), Needs(cat, chain, false, cs[1..]);
    GrewTwice(a, b1, b, Needed(cat, chain, true, cs[0]), Needed(cat, chain, false, cs[0]), x, y);
    FlattenCons(cat, chain, true, cs);
    FlattenCons(cat, chain, false, cs);
    OneMoreHeld(cat, chain, true, cs, a, b1, b, lt, lt1, lt', x, y);
    OneMoreHeld(cat, chain, false, cs, a, b1, b, lf, lf1, lf', x, y);
  }

  lemma NotWalked(cat: Catalog, chain: Chain, x: Cond, a: Acc, b0: Acc, b: Acc, lt: seq<int>, lt': seq<int>,
                  lf: seq<int>, lf': seq<int>)
    requires WellScoped(cat, chain, x) && Ok(a) && Walked(cat, chain, x, Acc(a.cells, Nil, Nil), b0, lt, lt', lf, lf')
    requires b == Join(Acc(b0.cells, a.t, a.f), b0.f, b0.t)
    ensures Walked(cat, chain, Not(x), a, b, lt, lt', lf, lf')
  {
    GrewFromNil(a.cells, b0, Needed(cat, chain, true, x), Needed(cat, chain, false, x));
    JoinGrows(a, b0.cells, b0.f, b0.t);
    var x0: seq<Attr> := [];
    assert x0 + Needed(cat, chain, true, x) == Needed(cat, chain, true, x);
    assert x0 + Needed(cat, chain, false, x) == Needed(cat, chain, false, x);
    NotRecorded(cat, chain, true, x, a, b0, b, lt, lt');
    NotRecorded(cat, chain, false, x, a, b0, b, lf, lf');
  }

  lemma JunctionWalked(cat: Catalog, chain: Chain, c: Cond, cs: seq<Cond>, a: Acc, b0: Acc, cells1: seq<Cell>,
                       cells: seq<Cell>,
                       u: Ref, v: Ref, b: Acc, lt: seq<int>, lt0: seq<int>, lf: seq<int>, lf0: seq<int>)
    requires WellScoped(cat, chain, c) && (c == And(cs) || c == Or(cs)) && Ok(a)
    requires WalkedArgs(cat, chain, cs, Acc(a.cells, Nil, Nil), b0, lt, lt0, lf, lf0)
    requires cells1 == Alloc(b0.cells, Needed(cat, chain, true, c)) && u == Fresh(b0.cells, Needed(cat, chain, true, c))
    requires cells == Alloc(cells1, Needed(cat, chain, false, c)) && v == Fresh(cells1, Needed(cat, chain, false, c))
    requires b == Join(Acc(cells, a.t, a.f), u, v)
    ensures Walked(cat, chain, c, a, b, lt, lt0 + [HeadOf(u)], lf, lf0 + [HeadOf(v)])
  {
    GrewFromNil(a.cells, b0, Needs(cat, chain, true, cs), Needs(cat, chain, false, cs));
    AllocExtends(b0.cells, Needed(cat, chain, true, c));
    AllocExtends(cells1, Needed(cat, chain, false, c));
    ExtendsTransitive(b0.cells, cells1, cells);
    ExtendsTransitive(a.cells, b0.cells, cells);
    JoinGrows(a, cells, u, v);
    JunctionRecorded(cat, chain, true, c, cs, a, b0.cells, cells, b, u, lt, lt0);
    JunctionRecorded(cat, chain, false, c, cs, a, b0.cells, cells, b, v, lf, lf0);
  }

  /** The lists of an AND or OR node from the concatenated lists of its arguments. */
  method Combine(cat: Catalog, chain: Chain, c: Cond, cs: seq<Cond>, argsTrue: seq<Attr>, argsFalse: seq<Attr>)
    returns (lTrue: seq<Attr>, lFalse: seq<Attr>)
    requires c == And(cs) || c == Or(cs)
    requires WellScoped(cat, chain, c)
    requires argsTrue == Needs(cat, chain, true, cs) && argsFalse == Needs(cat, chain, false, cs)
    ensures lTrue == Needed(cat, chain, true, c) && lFalse == Needed(cat, chain, false, c)
  {
    if c.And? {
      lTrue := UnionList(argsTrue);
      lFalse := InterList(argsFalse, |cs|);
    } else {
      lTrue := InterList(argsTrue, |cs|);
      lFalse := UnionList(argsFalse);
    }
  }


  /** What a loop over a list meets. */
  method Elements(cells: seq<Cell>, r: Ref) returns (xs: seq<Attr>)
    requires Heap(cells) && Points(cells, r)
    ensures xs == Contents(cells, r)
  {
    xs := [];
    var k := HeadOf(r);
    while k != -1
      invariant -1 <= k < |cells| && xs + Read(cells, k) == Contents(cells, r)
      decreases if k < 0 then 0 else |cells| - k
    {
      assert xs + ([cells[k].v] + Read(cells, cells[k].next)) == xs + [cells[k].v] + Read(cells, cells[k].next);
      xs := xs + [cells[k].v];
      k := cells[k].next;
    }
  }

  class ContextWalker {
    const cat: Catalog
    var trueVars: seq<Chain>
    var current: Chain
    var schema: seq<Attr>
    var inOp: seq<Attr>
    var cells: seq<Cell>
    var toBeTrue: Ref
    var toBeFalse: Ref
    var ready: bool
    var listTrue: seq<int>    // where the stored lists begin
    var listFalse: seq<int>

    constructor (cat: Catalog)
      ensures this.cat == cat
      ensures trueVars == [] && current == [] && schema == [] && State() == Acc([], Nil, Nil)
      ensures listTrue == [] && listFalse == []
    {
      this.cat := cat;
      trueVars, current, schema, inOp, cells, toBeTrue, toBeFalse := [], [], [], [], [], Nil, Nil;
      ready, listTrue, listFalse := false, [], [];
    }

    function State(): Acc
      reads this
    {
      Acc(cells, toBeTrue, toBeFalse)
    }

    /** A range table entry of a base relation: its columns, of which the NOT NULL ones are remembered. */
    method WalkRelation(rel: nat) returns (relation: seq<Attr>)
      modifies this`schema
      ensures relation == Columns(cat, rel)
      ensures forall a :: a in schema <==> a in old(schema) || (a in relation && a in cat.notNull)
    {
      relation := [];
      var n := Natts(cat, rel);
      for i := 0 to n
        invariant |relation| == i && forall a :: 0 <= a < i ==> relation[a] == Attr(rel, a + 1)
        invariant forall a :: a in schema <==> a in old(schema) || (a in relation && a in cat.notNull)
      {
        var v := Attr(rel, i + 1);
        relation := relation + [v];
        if v in cat.notNull { schema := schema + [v]; }
      }
    }

    method WalkRangeTable(rels: seq<nat>) returns (scope: seq<seq<Attr>>)
      modifies this`schema
      ensures scope == ScopeOf(cat, rels)
      ensures SchemaOf(cat, old(schema), schema, Exists(rels, Absent))
    {
      scope := [];
      SchemaOfNothing(cat, schema);
      assert rels[..0] == [];
      for i := 0 to |rels|
        invariant |scope| == i && forall k :: 0 <= k < i ==> scope[k] == Columns(cat, rels[k])
        invariant SchemaOf(cat, old(schema), schema, Exists(rels[..i], Absent))
      {
        assert rels[..i + 1] == rels[..i] + [rels[i]];
        ghost var before := schema;
        var relation := WalkRelation(rels[i]);
        SchemaOfRelation(cat, old(schema), before, schema, rels[..i], rels[i]);
        scope := scope + [relation];
      }
      assert rels[..|rels|] == rels;
    }

    /** A new list, cell by cell. */
    method NewList(xs: seq<Attr>) returns (r: Ref)
      requires Heap(cells)
      modifies this`cells
      ensures cells == Alloc(old(cells), xs) && r == Fresh(old(cells), xs)
    {
      r := Nil;
      for i := 0 to |xs|
        invariant cells == Alloc(old(cells), xs[..i]) && r == Fresh(old(cells), xs[..i])
      {
        if r.Nil? {
          cells, r := cells + [Cell(xs[i], -1)], Ref(|cells|, |cells|);
        } else {
          cells, r := Link(cells, r.tail, |cells|) + [Cell(xs[i], -1)], Ref(r.head, |cells|);
        }
        assert cells == Alloc(old(cells), xs[..i + 1]);
      }
      assert xs[..|xs|] == xs;
    }

    /** list_concat, which refuses a list as both its arguments. */
    method ListConcat(a: Ref, b: Ref) returns (r: Ref)
      requires (a.Ref? ==> a.tail < |cells|) && (a.Ref? && b.Ref? ==> a.head != b.head)
      modifies this`cells
      ensures cells == Linked(old(cells), a, b) && r == Concat(a, b)
    {
      if a.Nil? { return b; }
      if b.Nil? { return a; }
      cells := Link(cells, a.tail, b.head);
      r := Ref(a.head, b.tail);
    }

    /** The columns go behind what is being collected, and so behind every list that ends there. */
    method WalkOperator(ts: seq<Term>)
      requires (forall i :: 0 <= i < |ts| ==> InScope(current, ts[i])) && Ok(State())
      modifies this`ready, this`inOp, this`toBeTrue, this`cells
      ensures Grew(old(State()), State(), Dedup(ColumnsOf(current, ts)), [])
    {
      ghost var a := State();
      CollectColumns(ts);
      AllocExtends(cells, inOp);
      AppendTrue(inOp);
      JoinGrows(a, Alloc(a.cells, inOp), Fresh(a.cells, inOp), Nil);
    }

    method AppendTrue(xs: seq<Attr>)
      requires Ok(State())
      modifies this`toBeTrue, this`cells
      ensures State() == Join(Acc(Alloc(old(cells), xs), old(toBeTrue), toBeFalse), Fresh(old(cells), xs), Nil)
    {
      var u := NewList(xs);
      toBeTrue := ListConcat(toBeTrue, u);
    }

    method CollectColumns(ts: seq<Term>)
      requires forall i :: 0 <= i < |ts| ==> InScope(current, ts[i])
      modifies this`ready, this`inOp
      ensures inOp == Dedup(ColumnsOf(current, ts))
    {
      ready := true;
      inOp := [];
      for i := 0 to |ts|
        invariant inOp == Dedup(ColumnsOf(current, ts[..i]))
      {
        assert ts[..i + 1][..i] == ts[..i];
        if ts[i].Column? {
          var v := GetTrueVar(current, ts[i]);
          ghost var before := ColumnsOf(current, ts[..i]);
          assert ColumnsOf(current, ts[..i + 1]) == before + [v];
          assert (before + [v])[..|before + [v]| - 1] == before;
          var present := IsInListTrueVar(inOp, v);
          if !present { inOp := inOp + [v]; }
        } else {
          assert ColumnsOf(current, ts[..i + 1]) == ColumnsOf(current, ts[..i]);
        }
      }
      assert ts[..|ts|] == ts;
    }

    method Walk(c: Cond)
      requires WellScoped(cat, current, c) && NoNullTest(c) && Ok(State())
      modifies this
      ensures current == old(current)
      ensures Walked(cat, current, c, old(State()), State(), old(listTrue), listTrue, old(listFalse), listFalse)
      ensures trueVars == old(trueVars) + Mutator.Chains(cat, current, c)
      ensures SchemaOf(cat, old(schema), schema, c)
      decreases c, 1
    {
      match c
      case Absent => GrewNothing(State()); NoNodes(cat, current, c, old(State()), State(), listTrue, listFalse);
      case Compare(_, ts) => WalkOperator(ts); NoNodes(cat, current, c, old(State()), State(), listTrue, listFalse);
      case And(cs) => WalkJunction(c, cs);
      case Or(cs) => WalkJunction(c, cs);
      case Not(a) => WalkNot(a);
      case Exists(rels, q) => WalkQuery(rels, q);
    }

    method WalkNot(x: Cond)
      requires WellScoped(cat, current, x) && NoNullTest(x) && Ok(State())
      modifies this
      ensures current == old(current)
      ensures Walked(cat, current, Not(x), old(State()), State(), old(listTrue), listTrue, old(listFalse), listFalse)
      ensures trueVars == old(trueVars) + Mutator.Chains(cat, current, x)
      ensures SchemaOf(cat, old(schema), schema, Not(x))
      decreases x, 2
    {
      var saveTrue, saveFalse := toBeTrue, toBeFalse;
      toBeTrue, toBeFalse := Nil, Nil;
      Walk(x);
      SchemaOfNode(cat, old(schema), schema, x, Not(x));
      ghost var b0 := State();
      var lTrue, lFalse := toBeTrue, toBeFalse;
      AppendBoth(saveTrue, saveFalse, lFalse, lTrue);
      NotWalked(cat, current, x, old(State()), b0, State(), old(listTrue), listTrue, old(listFalse), listFalse);
    }

    method WalkJunction(c: Cond, cs: seq<Cond>)
      requires c == And(cs) || c == Or(cs)
      requires WellScoped(cat, current, c) && NoNullTest(c) && Ok(State())
      modifies this
      ensures current == old(current)
      ensures Walked(cat, current, c, old(State()), State(), old(listTrue), listTrue, old(listFalse), listFalse)
      ensures trueVars == old(trueVars) + Mutator.Chains(cat, current, c)
      ensures SchemaOf(cat, old(schema), schema, c)
      ensures Exact(cat, current, c, old(State()), State(), listTrue, listFalse)
      decreases c, 0
    {
      var saveTrue, saveFalse := toBeTrue, toBeFalse;
      toBeTrue, toBeFalse := Nil, Nil;
      WalkArgs(cs);
      if c.Or? { SchemaOfNode(cat, old(schema), schema, And(cs), c); }
      CloseJunction(c, cs, saveTrue, saveFalse, old(State()), old(listTrue), old(listFalse));
      WalkedExactly(cat, current, c, old(State()), State(), old(listTrue), listTrue, old(listFalse), listFalse);
    }

    /** The lists of the node from what its arguments collected. */
    method NodeLists(c: Cond, cs: seq<Cond>, ghost a: Acc) returns (lTrue: seq<Attr>, lFalse: seq<Attr>)
      requires (c == And(cs) || c == Or(cs)) && WellScoped(cat, current, c)
      requires Grew(Acc(a.cells, Nil, Nil), State(), Needs(cat, current, true, cs), Needs(cat, current, false, cs))
      ensures lTrue == Needed(cat, current, true, c) && lFalse == Needed(cat, current, false, c)
    {
      var argsTrue := Elements(cells, toBeTrue);
      var argsFalse := Elements(cells, toBeFalse);
      ghost var x0: seq<Attr> := [];
      assert argsTrue == x0 + Needs(cat, current, true, cs) == Needs(cat, current, true, cs);
      assert argsFalse == x0 + Needs(cat, current, false, cs) == Needs(cat, current, false, cs);
      lTrue, lFalse := Combine(cat, current, c, cs, argsTrue, argsFalse);
    }

    /** They are stored, and appended to what was being collected outside the node. */
    method CloseJunction(c: Cond, cs: seq<Cond>, saveTrue: Ref, saveFalse: Ref, ghost a: Acc,
                         ghost lt: seq<int>, ghost lf: seq<int>)
      requires (c == And(cs) || c == Or(cs)) && WellScoped(cat, current, c)
      requires Ok(a) && a.t == saveTrue && a.f == saveFalse
      requires WalkedArgs(cat, current, cs, Acc(a.cells, Nil, Nil), State(), lt, listTrue, lf, listFalse)
      modifies this`cells, this`toBeTrue, this`toBeFalse, this`listTrue, this`listFalse
      ensures Walked(cat, current, c, a, State(), lt, listTrue, lf, listFalse)
    {
      ghost var b0, lt0, lf0 := State(), listTrue, listFalse;
      var lTrue, lFalse := NodeLists(c, cs, a);
      GrewFromNil(a.cells, b0, Needs(cat, current, true, cs), Needs(cat, current, false, cs));
      StoreLists(lTrue, lFalse, saveTrue, saveFalse);
      ghost var cells1 := Alloc(b0.cells, lTrue);
      JunctionWalked(cat, current, c, cs, a, b0, cells1, Alloc(cells1, lFalse), Fresh(b0.cells, lTrue),
                     Fresh(cells1, lFalse), State(), lt, lt0, lf, lf0);
    }

    method StoreLists(lTrue: seq<Attr>, lFalse: seq<Attr>, saveTrue: Ref, saveFalse: Ref)
      requires Heap(cells) && Points(cells, saveTrue) && Points(cells, saveFalse)
      modifies this`cells, this`toBeTrue, this`toBeFalse, this`listTrue, this`listFalse
      ensures var cells1 := Alloc(old(cells), lTrue); var u, v := Fresh(old(cells), lTrue), Fresh(cells1, lFalse);
        && State() == Join(Acc(Alloc(cells1, lFalse), saveTrue, saveFalse), u, v)
        && listTrue == old(listTrue) + [HeadOf(u)] && listFalse == old(listFalse) + [HeadOf(v)]
    {
      var u, v := NewLists(lTrue, lFalse);
      listTrue, listFalse := listTrue + [HeadOf(u)], listFalse + [HeadOf(v)];
      AppendBoth(saveTrue, saveFalse, u, v);
    }

    method NewLists(lTrue: seq<Attr>, lFalse: seq<Attr>) returns (u: Ref, v: Ref)
      requires Heap(cells)
      modifies this`cells
      ensures cells == Alloc(Alloc(old(cells), lTrue), lFalse)
      ensures u == Fresh(old(cells), lTrue) && v == Fresh(Alloc(old(cells), lTrue), lFalse)
    {
      AllocExtends(cells, lTrue);
      u := NewList(lTrue);
      v := NewList(lFalse);
    }

    /** One list behind each accumulator that was put aside. */
    method AppendBoth(saveTrue: Ref, saveFalse: Ref, u: Ref, v: Ref)
      requires (saveTrue.Ref? ==> saveTrue.tail < |cells|) && (saveFalse.Ref? ==> saveFalse.tail < |cells|)
      requires saveTrue.Ref? && u.Ref? ==> saveTrue.head != u.head
      requires saveFalse.Ref? && v.Ref? ==> saveFalse.head != v.head
      modifies this`cells, this`toBeTrue, this`toBeFalse
      ensures State() == Join(Acc(old(cells), saveTrue, saveFalse), u, v)
    {
      toBeTrue := ListConcat(saveTrue, u);
      toBeFalse := ListConcat(saveFalse, v);
    }

    method WalkArgs(cs: seq<Cond>)
      requires (forall i :: 0 <= i < |cs| ==> WellScoped(cat, current, cs[i]) && NoNullTest(cs[i])) && Ok(State())
      modifies this
      ensures current == old(current)
      ensures WalkedArgs(cat, current, cs, old(State()), State(), old(listTrue), listTrue, old(listFalse), listFalse)
      ensures trueVars == old(trueVars) + Mutator.ChainsOf(cat, current, cs)
      ensures SchemaOf(cat, old(schema), schema, And(cs))
      decreases cs
    {
      if cs == [] {
        GrewNothing(State());
      } else {
        Walk(cs[0]);
        ghost var b1, lt1, lf1, schema1 := State(), listTrue, listFalse, schema;
        WalkArgs(cs[1..]);
        SchemaOfArgs(cat, old(schema), schema1, schema, cs);
        OneMoreWalked(cat, current, cs, old(State()), b1, State(), old(listTrue), lt1, listTrue, old(listFalse), lf1,
                      listFalse);
      }
    }

    method WalkQuery(rels: seq<nat>, q: Cond)
      requires WellScoped(cat, [ScopeOf(cat, rels)] + current, q) && NoNullTest(q) && Ok(State())
      modifies this
      ensures current == old(current)
      ensures Walked(cat, [ScopeOf(cat, rels)] + current, q, old(State()), State(), old(listTrue), listTrue,
                     old(listFalse), listFalse)
      ensures trueVars ==
        old(trueVars) + ([[ScopeOf(cat, rels)] + current] + Mutator.Chains(cat, [ScopeOf(cat, rels)] + current, q))
      ensures SchemaOf(cat, old(schema), schema, Exists(rels, q))
      decreases q, 3
    {
      var save := current;
      OpenScope(rels);
      ghost var chain, schema1 := current, schema;
      Walk(q);
      assert Walked(cat, chain, q, old(State()), State(), old(listTrue), listTrue, old(listFalse), listFalse);
      SchemaOfQuery(cat, old(schema), schema1, schema, rels, q);
      current := save;
    }

    method OpenScope(rels: seq<nat>)
      modifies this`schema, this`current, this`trueVars
      ensures current == [ScopeOf(cat, rels)] + old(current) && trueVars == old(trueVars) + [current]
      ensures SchemaOf(cat, old(schema), schema, Exists(rels, Absent))
    {
      var scope := WalkRangeTable(rels);
      current := [scope] + current;
      trueVars := trueVars + [current];
    }

    /** The lists as the second pass reads them. */
    method Stored(heads: seq<int>) returns (lists: seq<seq<Attr>>)
      requires Heap(cells) && forall i :: 0 <= i < |heads| ==> -1 <= heads[i] < |cells|
      ensures |lists| == |heads| && forall i :: 0 <= i < |heads| ==> lists[i] == Read(cells, heads[i])
    {
      lists := [];
      for i := 0 to |heads|
        invariant |lists| == i && forall k :: 0 <= k < i ==> lists[k] == Read(cells, heads[k])
      {
        var xs := [];
        if heads[i] != -1 { xs := Elements(cells, Ref(heads[i], End(cells, heads[i]))); }
        lists := lists + [xs];
      }
    }
  }
}
