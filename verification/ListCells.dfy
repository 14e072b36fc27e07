/**
 Lists as the code keeps them: cells linked by their successors.  Concatenation links the last cell of
 one list to the first of another, so whoever still holds the second list, or the end of the first,
 sees what is appended later.
 */
module ListCells {
  import opened Completions

  /** Cells are numbered in the order of allocation; next is -1 at the end of a list. */
  datatype Cell = Cell(v: Attr, next: int)

  /** A list begins and ends at some cell; the empty list has none. */
  datatype Ref = Nil | Ref(head: nat, tail: nat)

  predicate Heap(cells: seq<Cell>) {
    forall k :: 0 <= k < |cells| ==> cells[k].next == -1 || k < cells[k].next < |cells|
  }

  /** What a loop over the list that begins at cell k meets. */
  function Read(cells: seq<Cell>, k: int): seq<Attr>
    requires Heap(cells) && -1 <= k < |cells|
    decreases if k < 0 then 0 else |cells| - k
  {
    if k == -1 then [] else [cells[k].v] + Read(cells, cells[k].next)
  }

  function End(cells: seq<Cell>, k: nat): (e: nat)
    requires Heap(cells) && k < |cells|
    ensures k <= e < |cells| && cells[e].next == -1
    decreases |cells| - k
  {
    if cells[k].next == -1 then k else End(cells, cells[k].next)
  }

  predicate Points(cells: seq<Cell>, r: Ref)
    requires Heap(cells)
  {
    r.Ref? ==> r.head < |cells| && End(cells, r.head) == r.tail
  }

  function Contents(cells: seq<Cell>, r: Ref): seq<Attr>
    requires Heap(cells) && Points(cells, r)
  {
    if r.Nil? then [] else Read(cells, r.head)
  }

  function HeadOf(r: Ref): int {
    if r.Nil? then -1 else r.head
  }

  // ----- allocation -----

  /** A list of fresh cells with the elements of xs. */
  function Alloc(cells: seq<Cell>, xs: seq<Attr>): (r: seq<Cell>)
    ensures |r| == |cells| + |xs|
  {
    cells + seq(|xs|, i requires 0 <= i < |xs| => Cell(xs[i], if i + 1 < |xs| then |cells| + i + 1 else -1))
  }

  function Fresh(cells: seq<Cell>, xs: seq<Attr>): Ref {
    if xs == [] then Nil else Ref(|cells|, |cells| + |xs| - 1)
  }

  /** Nothing that was there changes. */
  ghost predicate Extends(cells: seq<Cell>, cells': seq<Cell>) {
    && Heap(cells) && Heap(cells') && |cells| <= |cells'|
    && forall k :: 0 <= k < |cells| ==> Read(cells', k) == Read(cells, k) && End(cells', k) == End(cells, k)
  }

  lemma {:induction false} PrefixReads(cells: seq<Cell>, cells': seq<Cell>, k: nat)
    requires Heap(cells) && Heap(cells') && cells <= cells' && k < |cells|
    ensures Read(cells', k) == Read(cells, k) && End(cells', k) == End(cells, k)
    decreases |cells| - k
  {
    if cells[k].next != -1 { PrefixReads(cells, cells', cells[k].next); }
  }

  lemma {:induction false} FreshReads(cells: seq<Cell>, xs: seq<Attr>, i: nat)
    requires Heap(cells) && i < |xs|
    ensures Heap(Alloc(cells, xs))
    ensures Read(Alloc(cells, xs), |cells| + i) == xs[i..] && End(Alloc(cells, xs), |cells| + i) == |cells| + |xs| - 1
    decreases |xs| - i
  {
    if i + 1 < |xs| { FreshReads(cells, xs, i + 1); }
  }

  lemma AllocExtends(cells: seq<Cell>, xs: seq<Attr>)
    requires Heap(cells)
    ensures var cells' := Alloc(cells, xs);
      && Extends(cells, cells') && Points(cells', Fresh(cells, xs)) && Contents(cells', Fresh(cells, xs)) == xs
  {
    var cells' := Alloc(cells, xs);
    if xs != [] { FreshReads(cells, xs, 0); }
    forall k | 0 <= k < |cells| ensures Read(cells', k) == Read(cells, k) && End(cells', k) == End(cells, k) {
      PrefixReads(cells, cells', k);
    }
  }

  lemma ExtendsTransitive(a: seq<Cell>, b: seq<Cell>, c: seq<Cell>)
    requires Extends(a, b) && Extends(b, c)
    ensures Extends(a, c)
  {
  }

  // ----- concatenation -----

  function Link(cells: seq<Cell>, t: nat, h: int): seq<Cell>
    requires t < |cells|
  {
    cells[t := cells[t].(next := h)]
  }

  /** Every list that ended at t now goes on at h. */
  lemma {:induction false} LinkReads(cells: seq<Cell>, t: nat, h: nat, k: nat)
    requires Heap(cells) && k < |cells| && t < h < |cells| && cells[t].next == -1
    ensures Heap(Link(cells, t, h))
    ensures Read(Link(cells, t, h), k) == Read(cells, k) + (if End(cells, k) == t then Read(cells, h) else [])
    ensures End(Link(cells, t, h), k) == if End(cells, k) == t then End(cells, h) else End(cells, k)
    decreases |cells| - k
  {
    var cells' := Link(cells, t, h);
    if k == t {
      LinkReads(cells, t, h, h);
    } else if cells[k].next != -1 {
      LinkReads(cells, t, h, cells[k].next);
    }
  }

  /** list_concat: an empty list costs nothing, otherwise the first list is extended in place. */
  function Linked(cells: seq<Cell>, a: Ref, b: Ref): seq<Cell>
    requires a.Ref? ==> a.tail < |cells|
  {
    if a.Nil? || b.Nil? then cells else Link(cells, a.tail, b.head)
  }

  function Concat(a: Ref, b: Ref): Ref {
    if a.Nil? then b else if b.Nil? then a else Ref(a.head, b.tail)
  }

  // ----- two accumulators over one heap -----

  datatype Acc = Acc(cells: seq<Cell>, t: Ref, f: Ref)

  ghost predicate Ok(a: Acc) {
    && Heap(a.cells) && Points(a.cells, a.t) && Points(a.cells, a.f)
    && (a.t.Ref? && a.f.Ref? ==> a.t.tail != a.f.tail)
  }

  /** What a list that ended at e gains while x is appended to one accumulator and y to the other. */
  function Gain(a: Acc, e: nat, x: seq<Attr>, y: seq<Attr>): seq<Attr> {
    if a.t.Ref? && e == a.t.tail then x else if a.f.Ref? && e == a.f.tail then y else []
  }

  /** And where it ends then. */
  function Moved(a: Acc, b: Acc, e: nat): nat {
    if a.t.Ref? && b.t.Ref? && e == a.t.tail then b.t.tail
    else if a.f.Ref? && b.f.Ref? && e == a.f.tail then b.f.tail
    else e
  }

  /** From r to r' by appending x to a list in a heap that had n cells. */
  predicate Appended(n: nat, r: Ref, r': Ref, x: seq<Attr>) {
    && (x == [] ==> r' == r)
    && (x != [] ==> r'.Ref? && r'.tail >= n)
    && (r.Ref? ==> r'.Ref? && r'.head == r.head)
    && (r.Nil? && x != [] ==> r'.head >= n)
  }

  ghost predicate GrewAt(a: Acc, b: Acc, x: seq<Attr>, y: seq<Attr>, k: nat)
    requires Ok(a) && Ok(b) && k < |a.cells| <= |b.cells|
  {
    && Read(b.cells, k) == Read(a.cells, k) + Gain(a, End(a.cells, k), x, y)
    && End(b.cells, k) == Moved(a, b, End(a.cells, k))
  }

  predicate BothAppended(a: Acc, b: Acc, x: seq<Attr>, y: seq<Attr>) {
    Appended(|a.cells|, a.t, b.t, x) && Appended(|a.cells|, a.f, b.f, y)
  }

  /** x has been appended to the first accumulator and y to the second; all lists that ended there grew with them. */
  ghost predicate Grew(a: Acc, b: Acc, x: seq<Attr>, y: seq<Attr>) {
    && Ok(a) && Ok(b) && |a.cells| <= |b.cells| && BothAppended(a, b, x, y)
    && Contents(b.cells, b.t) == Contents(a.cells, a.t) + x
    && Contents(b.cells, b.f) == Contents(a.cells, a.f) + y
    && forall k :: 0 <= k < |a.cells| ==> GrewAt(a, b, x, y, k)
  }

  lemma GrewNothing(a: Acc)
    requires Ok(a)
    ensures Grew(a, a, [], [])
  {
  }

  lemma GainTwice(a: Acc, b: Acc, e: nat, x: seq<Attr>, y: seq<Attr>, x': seq<Attr>, y': seq<Attr>)
    requires Ok(a) && Ok(b) && e < |a.cells| && BothAppended(a, b, x, y)
    ensures Gain(b, Moved(a, b, e), x', y') == Gain(a, e, x', y')
    ensures Gain(a, e, x, y) + Gain(a, e, x', y') == Gain(a, e, x + x', y + y')
  {
  }

  lemma MovedTwice(a: Acc, b: Acc, c: Acc, e: nat, x: seq<Attr>, y: seq<Attr>, x': seq<Attr>, y': seq<Attr>)
    requires Ok(a) && Ok(b) && Ok(c) && e < |a.cells| <= |b.cells|
    requires BothAppended(a, b, x, y) && BothAppended(b, c, x', y')
    ensures Moved(b, c, Moved(a, b, e)) == Moved(a, c, e)
  {
  }

  lemma AppendedTwice(a: Acc, b: Acc, c: Acc, x: seq<Attr>, y: seq<Attr>, x': seq<Attr>, y': seq<Attr>)
    requires |a.cells| <= |b.cells| && BothAppended(a, b, x, y) && BothAppended(b, c, x', y')
    ensures BothAppended(a, c, x + x', y + y')
  {
  }

  lemma GrewTwiceAt(a: Acc, b: Acc, c: Acc, x: seq<Attr>, y: seq<Attr>, x': seq<Attr>, y': seq<Attr>, k: nat)
    requires Ok(a) && Ok(b) && Ok(c) && k < |a.cells| <= |b.cells| <= |c.cells|
    requires BothAppended(a, b, x, y) && BothAppended(b, c, x', y')
    requires GrewAt(a, b, x, y, k) && GrewAt(b, c, x', y', k)
    ensures GrewAt(a, c, x + x', y + y', k)
  {
    var e := End(a.cells, k);
    GainTwice(a, b, e, x, y, x', y');
    MovedTwice(a, b, c, e, x, y, x', y');
    assert Read(a.cells, k) + Gain(a, e, x, y) + Gain(a, e, x', y')
        == Read(a.cells, k) + (Gain(a, e, x, y) + Gain(a, e, x', y'));
  }

  lemma GrewTwice(a: Acc, b: Acc, c: Acc, x: seq<Attr>, y: seq<Attr>, x': seq<Attr>, y': seq<Attr>)
    requires Grew(a, b, x, y) && Grew(b, c, x', y')
    ensures Grew(a, c, x + x', y + y')
  {
    AppendedTwice(a, b, c, x, y, x', y');
    forall k | 0 <= k < |a.cells| ensures GrewAt(a, c, x + x', y + y', k) { GrewTwiceAt(a, b, c, x, y, x', y', k); }
  }

  /** A walk that starts with empty accumulators changes no list that was there. */
  lemma GrewFromNil(cells: seq<Cell>, b: Acc, x: seq<Attr>, y: seq<Attr>)
    requires Grew(Acc(cells, Nil, Nil), b, x, y)
    ensures Extends(cells, b.cells)
  {
    forall k | 0 <= k < |cells| ensures Read(b.cells, k) == Read(cells, k) && End(b.cells, k) == End(cells, k) {
      assert GrewAt(Acc(cells, Nil, Nil), b, x, y, k);
      assert Read(cells, k) + [] == Read(cells, k);
    }
  }

  // ----- appending lists made since -----

  /** A list of cells younger than n. */
  ghost predicate Young(cells: seq<Cell>, n: nat, r: Ref)
    requires Heap(cells)
  {
    Points(cells, r) && (r.Ref? ==> r.head >= n)
  }

  /** Appending u to the first accumulator. */
  function JoinFirst(a: Acc, u: Ref): Acc
    requires a.t.Ref? ==> a.t.tail < |a.cells|
  {
    Acc(Linked(a.cells, a.t, u), Concat(a.t, u), a.f)
  }

  function Swapped(a: Acc): Acc {
    Acc(a.cells, a.f, a.t)
  }

  lemma LinkedReads(a: Acc, n: nat, u: Ref, k: nat)
    requires Ok(a) && Young(a.cells, n, u) && (a.t.Ref? ==> a.t.tail < n) && k < |a.cells|
    ensures var b := JoinFirst(a, u);
      && Heap(b.cells) && |b.cells| == |a.cells|
      && Read(b.cells, k) == Read(a.cells, k) + (if a.t.Ref? && End(a.cells, k) == a.t.tail then Contents(a.cells, u)
        else [])
      && End(b.cells, k) == if a.t.Ref? && u.Ref? && End(a.cells, k) == a.t.tail then u.tail else End(a.cells, k)
  {
    if a.t.Ref? && u.Ref? { LinkReads(a.cells, a.t.tail, u.head, k); }
  }

  /** x has gone to the first accumulator, in cells that were there. */
  ghost predicate Took(n: nat, a: Acc, b: Acc, x: seq<Attr>) {
    && Ok(a) && Ok(b) && |b.cells| == |a.cells| && b.f == a.f && Appended(n, a.t, b.t, x)
    && Contents(b.cells, b.t) == Contents(a.cells, a.t) + x
    && forall k :: 0 <= k < |a.cells| ==> GrewAt(a, b, x, [], k)
  }

  /** u, made since the heap had n cells, goes to the first accumulator: lists that ended there grow. */
  lemma JoinFirstGrows(a: Acc, n: nat, u: Ref)
    requires Ok(a) && Young(a.cells, n, u) && n <= |a.cells|
    requires (a.t.Ref? ==> a.t.tail < n) && (a.f.Ref? && u.Ref? ==> a.f.tail != u.tail)
    ensures Took(n, a, JoinFirst(a, u), Contents(a.cells, u))
  {
    forall k | 0 <= k < |a.cells|
      ensures var b := JoinFirst(a, u);
        && Heap(b.cells) && |b.cells| == |a.cells|
        && Read(b.cells, k) == Read(a.cells, k) + Gain(a, End(a.cells, k), Contents(a.cells, u), [])
        && End(b.cells, k) == Moved(a, b, End(a.cells, k))
    {
      LinkedReads(a, n, u, k);
    }
  }

  lemma TookSecondStays(n: nat, a: Acc, b: Acc, x: seq<Attr>)
    requires Took(n, a, b, x)
    ensures Contents(b.cells, b.f) == Contents(a.cells, a.f)
  {
    if a.f.Ref? {
      assert GrewAt(a, b, x, [], a.f.head);
      assert Read(a.cells, a.f.head) + [] == Read(a.cells, a.f.head);
    }
  }

  /** Both accumulators of base take a list. */
  function Join(base: Acc, u: Ref, v: Ref): Acc
    requires (base.t.Ref? ==> base.t.tail < |base.cells|) && (base.f.Ref? ==> base.f.tail < |base.cells|)
  {
    Swapped(JoinFirst(Swapped(JoinFirst(base, u)), v))
  }

  ghost predicate Untouched(cells: seq<Cell>, cells': seq<Cell>, n: nat) {
    && Heap(cells) && Heap(cells') && |cells'| == |cells|
    && forall k :: n <= k < |cells| ==> Read(cells', k) == Read(cells, k) && End(cells', k) == End(cells, k)
  }

  /** Lists made since do not change while older ones take them over. */
  lemma JoinFirstSpares(a: Acc, n: nat, u: Ref)
    requires Ok(a) && Young(a.cells, n, u) && n <= |a.cells|
    requires (a.t.Ref? ==> a.t.tail < n) && (a.f.Ref? && u.Ref? ==> a.f.tail != u.tail)
    ensures Untouched(a.cells, JoinFirst(a, u).cells, n)
  {
    JoinFirstGrows(a, n, u);
    forall k | n <= k < |a.cells|
      ensures Read(JoinFirst(a, u).cells, k) == Read(a.cells, k) && End(JoinFirst(a, u).cells, k) == End(a.cells, k)
    {
      LinkedReads(a, n, u, k);
      assert Read(a.cells, k) + [] == Read(a.cells, k);
    }
  }

  /** What the two steps do to a list that ended at e. */
  lemma JoinGain(a: Acc, n: nat, u: Ref, v: Ref, e: nat, x: seq<Attr>, y: seq<Attr>)
    requires (a.t.Ref? ==> a.t.tail < n) && (a.f.Ref? ==> a.f.tail < n) && e < n
    requires (a.t.Ref? && a.f.Ref? ==> a.t.tail != a.f.tail)
    requires (u.Ref? ==> u.tail >= n) && (v.Ref? ==> v.tail >= n)
    ensures var t', f' := Concat(a.t, u), Concat(a.f, v);
      var b1 := Acc([], t', a.f);
      var e1 := Moved(a, b1, e);
      && Gain(a, e, x, []) + Gain(Acc([], a.f, t'), e1, y, []) == Gain(a, e, x, y)
      && Moved(Acc([], a.f, t'), Acc([], f', t'), e1) == Moved(a, Acc([], t', f'), e)
  {
  }

  lemma JoinGrowsAt(a: Acc, base: Acc, b1: Acc, b: Acc, u: Ref, v: Ref, x: seq<Attr>, y: seq<Attr>, k: nat)
    requires Ok(a) && Ok(base) && Ok(b1) && Ok(b) && k < |a.cells| <= |base.cells| == |b1.cells| == |b.cells|
    requires base.t == a.t && base.f == a.f && b1.t == Concat(a.t, u) && b1.f == a.f
    requires b.t == b1.t && b.f == Concat(a.f, v)
    requires (u.Ref? ==> u.tail >= |a.cells|) && (v.Ref? ==> v.tail >= |a.cells|)
    requires Read(base.cells, k) == Read(a.cells, k) && End(base.cells, k) == End(a.cells, k)
    requires GrewAt(base, b1, x, [], k) && GrewAt(Swapped(b1), Swapped(b), y, [], k)
    ensures GrewAt(a, b, x, y, k)
  {
    var e := End(a.cells, k);
    JoinGain(a, |a.cells|, u, v, e, x, y);
    var g, h := Gain(a, e, x, []), Gain(Swapped(b1), End(b1.cells, k), y, []);
    assert Read(a.cells, k) + g + h == Read(a.cells, k) + (g + h);
  }

  /** The two steps, each with what it leaves as it was. */
  lemma JoinSteps(base: Acc, n: nat, u: Ref, v: Ref)
    requires Ok(base) && n <= |base.cells| && (base.t.Ref? ==> base.t.tail < n) && (base.f.Ref? ==> base.f.tail < n)
    requires Young(base.cells, n, u) && Young(base.cells, n, v) && (u.Ref? && v.Ref? ==> u.tail != v.tail)
    ensures var b1, b := JoinFirst(base, u), Join(base, u, v);
      && Took(n, base, b1, Contents(base.cells, u)) && Took(n, Swapped(b1), Swapped(b), Contents(base.cells, v))
      && Contents(b.cells, b.t) == Contents(base.cells, base.t) + Contents(base.cells, u)
      && Contents(b.cells, b.f) == Contents(base.cells, base.f) + Contents(base.cells, v)
      && Untouched(base.cells, b.cells, n)
  {
    JoinFirstGrows(base, n, u);
    JoinFirstSpares(base, n, u);
    TookSecondStays(n, base, JoinFirst(base, u), Contents(base.cells, u));
    JoinSecond(base, JoinFirst(base, u), n, v, Contents(base.cells, v));
  }

  lemma JoinAppended(base: Acc, n: nat, u: Ref, v: Ref)
    requires Heap(base.cells) && Young(base.cells, n, u) && Young(base.cells, n, v)
    requires (base.t.Ref? ==> base.t.tail < |base.cells|) && (base.f.Ref? ==> base.f.tail < |base.cells|)
    ensures var b := Join(base, u, v);
      Appended(n, base.t, b.t, Contents(base.cells, u)) && Appended(n, base.f, b.f, Contents(base.cells, v))
  {
  }

  /** The walk over a part of the condition is over: what it made is appended to the accumulators it started from. */
  lemma JoinGrows(a: Acc, cells: seq<Cell>, u: Ref, v: Ref)
    requires Ok(a) && Extends(a.cells, cells)
    requires Young(cells, |a.cells|, u) && Young(cells, |a.cells|, v) && (u.Ref? && v.Ref? ==> u.tail != v.tail)
    ensures var b := Join(Acc(cells, a.t, a.f), u, v);
      && Grew(a, b, Contents(cells, u), Contents(cells, v)) && Untouched(cells, b.cells, |a.cells|)
  {
    var base, n := Acc(cells, a.t, a.f), |a.cells|;
    var x, y := Contents(cells, u), Contents(cells, v);
    var b1, b := JoinFirst(base, u), Join(base, u, v);
    BaseOk(a, cells);
    JoinSteps(base, n, u, v);
    JoinAppended(base, n, u, v);
    forall k | 0 <= k < n ensures GrewAt(a, b, x, y, k) {
      assert GrewAt(base, b1, x, [], k) && GrewAt(Swapped(b1), Swapped(b), y, [], k);
      JoinGrowsAt(a, base, b1, b, u, v, x, y, k);
    }
  }

  lemma BaseOk(a: Acc, cells: seq<Cell>)
    requires Ok(a) && Extends(a.cells, cells)
    ensures var base := Acc(cells, a.t, a.f);
      && Ok(base) && Contents(cells, a.t) == Contents(a.cells, a.t) && Contents(cells, a.f) == Contents(a.cells, a.f)
  {
  }

  lemma JoinSecond(base: Acc, b1: Acc, n: nat, v: Ref, y: seq<Attr>)
    requires Ok(base) && Ok(b1) && n <= |base.cells| && Untouched(base.cells, b1.cells, n) && b1.f == base.f
    requires Young(base.cells, n, v) && Contents(base.cells, v) == y
    requires (b1.f.Ref? ==> b1.f.tail < n) && (b1.t.Ref? && v.Ref? ==> b1.t.tail != v.tail)
    ensures var s1, s2 := Swapped(b1), JoinFirst(Swapped(b1), v);
      Took(n, s1, s2, y) && Untouched(base.cells, s2.cells, n) && Contents(s2.cells, s2.f) == Contents(b1.cells, b1.t)
  {
    var s1 := Swapped(b1);
    assert Young(b1.cells, n, v) && Contents(b1.cells, v) == y;
    JoinFirstGrows(s1, n, v);
    JoinFirstSpares(s1, n, v);
    TookSecondStays(n, s1, JoinFirst(s1, v), y);
  }
}
