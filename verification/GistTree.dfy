/** A search tree whose pages carry lossy keys, whatever the keys are. */
module GistTree {

  datatype Tree<K, X> = Entry(x: X) | Page(key: K, kids: seq<Tree<K, X>>)

  function Stored<K, X>(t: Tree<K, X>): seq<X>
    decreases t
  {
    match t
    case Entry(x) => [x]
    case Page(_, kids) => StoredIn(kids)
  }

  function StoredIn<K, X>(kids: seq<Tree<K, X>>): seq<X>
    decreases kids
  {
    if kids == [] then [] else Stored(kids[0]) + StoredIn(kids[1..])
  }

  /** Every page key holds everything stored below the page. */
  ghost predicate Kept<K, X>(t: Tree<K, X>, holds: (K, X) -> bool)
    decreases t
  {
    t.Page? ==>
      && (forall x :: x in StoredIn(t.kids) ==> holds(t.key, x))
      && (forall i :: 0 <= i < |t.kids| ==> Kept(t.kids[i], holds))
  }

  /** Only pages with a consistent key are entered; entries are tested one by one. */
  function Search<K, X>(t: Tree<K, X>, consistent: K -> bool, test: X -> bool): seq<X>
    decreases t
  {
    match t
    case Entry(x) => if test(x) then [x] else []
    case Page(key, kids) => if consistent(key) then SearchIn(kids, consistent, test) else []
  }

  function SearchIn<K, X>(kids: seq<Tree<K, X>>, consistent: K -> bool, test: X -> bool): seq<X>
    decreases kids
  {
    if kids == [] then [] else Search(kids[0], consistent, test) + SearchIn(kids[1..], consistent, test)
  }

  function Scan<X>(xs: seq<X>, test: X -> bool): seq<X> {
    if xs == [] then [] else (if test(xs[0]) then [xs[0]] else []) + Scan(xs[1..], test)
  }

  lemma {:induction false} ScanConcat<X>(a: seq<X>, b: seq<X>, test: X -> bool)
    ensures Scan(a + b, test) == Scan(a, test) + Scan(b, test)
  {
    if a == [] {
      assert a + b == b;
    } else {
      ScanConcat(a[1..], b, test);
      var head := if test(a[0]) then [a[0]] else [];
      assert (a + b)[0] == a[0] && (a + b)[1..] == a[1..] + b;
      assert head + (Scan(a[1..], test) + Scan(b, test)) == head + Scan(a[1..], test) + Scan(b, test);
    }
  }

  lemma {:induction false} ScanNothing<X>(xs: seq<X>, test: X -> bool)
    requires forall i :: 0 <= i < |xs| ==> !test(xs[i])
    ensures Scan(xs, test) == []
  {
    if xs != [] { ScanNothing(xs[1..], test); }
  }

  /** No key above a match is inconsistent: then nothing is missed, and in the same order. */
  lemma {:induction false} SearchFindsAll<K(!new), X(!new)>(
    t: Tree<K, X>, holds: (K, X) -> bool, consistent: K -> bool, test: X -> bool)
    requires Kept(t, holds)
    requires forall k, x :: holds(k, x) && x in Stored(t) && test(x) ==> consistent(k)
    ensures Search(t, consistent, test) == Scan(Stored(t), test)
    decreases t
  {
    match t
    case Entry(x) => assert Scan([x][1..], test) == [];
    case Page(key, kids) =>
      if consistent(key) {
        SearchInFindsAll(kids, holds, consistent, test);
      } else {
        ScanNothing(StoredIn(kids), test);
      }
  }

  lemma {:induction false} SearchInFindsAll<K(!new), X(!new)>(
    kids: seq<Tree<K, X>>, holds: (K, X) -> bool, consistent: K -> bool, test: X -> bool)
    requires forall i :: 0 <= i < |kids| ==> Kept(kids[i], holds)
    requires forall k, x :: holds(k, x) && x in StoredIn(kids) && test(x) ==> consistent(k)
    ensures SearchIn(kids, consistent, test) == Scan(StoredIn(kids), test)
    decreases kids
  {
    if kids != [] {
      SearchFindsAll(kids[0], holds, consistent, test);
      SearchInFindsAll(kids[1..], holds, consistent, test);
      ScanConcat(Stored(kids[0]), StoredIn(kids[1..]), test);
    }
  }
}
