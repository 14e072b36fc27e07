/** Links to left operands, evaluation over the linked items, and what GIN asks of a query. */
module IntQueryExec {
  import opened IntQuery
  import opened IntQueryScan
  import IntQueryText

  // ----- findoprnd -----

  /** Assignment to a 16-bit field. */
  function ToInt16(x: int): int {
    (x + 0x8000) % 0x1_0000 - 0x8000
  }

  /** The postfix items with the distance from every binary operator to its left operand. */
  function Linked(e: Expr): (items: seq<Item>)
    ensures |items| == |Postfix(e)| > 0
  {
    match e
    case Num(v) => [Item(true, v, 0)]
    case Neg(a) => Linked(a) + [Item(false, '!' as int, -1)]
    case Conj(l, r) => Linked(l) + Linked(r) + [Item(false, '&' as int, ToInt16(-(|Linked(r)| + 1)))]
    case Disj(l, r) => Linked(l) + Linked(r) + [Item(false, '|' as int, ToInt16(-(|Linked(r)| + 1)))]
    case Paren(a) => Linked(a)
  }

  /** Right operands short enough for the 16-bit distance. */
  predicate LinksFit(e: Expr) {
    match e
    case Num(_) => true
    case Neg(a) => LinksFit(a)
    case Conj(l, r) => LinksFit(l) && LinksFit(r) && |Postfix(r)| < 0x8000
    case Disj(l, r) => LinksFit(l) && LinksFit(r) && |Postfix(r)| < 0x8000
    case Paren(a) => LinksFit(a)
  }

  /** In place, from the last item down; e is the expression whose items are at lo..pos. */
  method FindOprnd(ptr: array<Item>, pos: int, ghost lo: nat, ghost e: Expr) returns (pos': int)
    requires 0 <= pos < ptr.Length && lo + |Postfix(e)| == pos + 1
    requires forall i :: lo <= i <= pos ==> ptr[i] == Postfix(e)[i - lo]
    modifies ptr
    ensures pos' == lo - 1
    ensures forall i :: lo <= i <= pos ==> ptr[i] == Linked(e)[i - lo]
    ensures forall i :: 0 <= i < ptr.Length && (i < lo || i > pos) ==> ptr[i] == old(ptr[i])
    decreases |Postfix(e)|, 1
  {
    ghost var inner := Bare(e);
    if ptr[pos].isVal {
      ptr[pos] := ptr[pos].(left := 0);
      pos' := pos - 1;
    } else if ptr[pos].val == '!' as int {
      ptr[pos] := ptr[pos].(left := -1);
      pos' := FindOprnd(ptr, pos - 1, lo, inner.arg);
    } else {
      pos' := FindBinary(ptr, pos, lo, inner);
    }
  }

  /** A binary operator: the link is known once the right operand has been passed. */
  method FindBinary(ptr: array<Item>, pos: int, ghost lo: nat, ghost e: Expr) returns (pos': int)
    requires e.Conj? || e.Disj?
    requires 0 <= pos < ptr.Length && lo + |Postfix(e)| == pos + 1
    requires forall i :: lo <= i <= pos ==> ptr[i] == Postfix(e)[i - lo]
    modifies ptr
    ensures pos' == lo - 1
    ensures forall i :: lo <= i <= pos ==> ptr[i] == Linked(e)[i - lo]
    ensures forall i :: 0 <= i < ptr.Length && (i < lo || i > pos) ==> ptr[i] == old(ptr[i])
    decreases |Postfix(e)|, 0
  {
    ghost var k := lo + |Postfix(e.l)|;
    pos' := FindOprnd(ptr, pos - 1, k, e.r);
    assert pos' - pos == -(|Linked(e.r)| + 1);
    ptr[pos] := ptr[pos].(left := ToInt16(pos' - pos));
    assert ptr[pos] == Linked(e)[pos - lo];
    assert forall i :: k <= i < pos ==> ptr[i] == Linked(e.r)[i - k];
    pos' := FindOprnd(ptr, pos', lo, e.l);
    assert forall i :: k <= i < pos ==> ptr[i] == Linked(e.r)[i - k] == Linked(e)[i - lo];
    assert forall i :: lo <= i < k ==> ptr[i] == Linked(e.l)[i - lo] == Linked(e)[i - lo];
  }

  /** The operands inside items that end with an operator. */
  lemma SpliceSlices(was: seq<Item>, lo: nat, pos: nat, l: seq<Item>, r: seq<Item>, op: Item)
    requires lo <= pos < |was| && was[lo..pos + 1] == l + r + [op]
    ensures was[lo..lo + |l|] == l && was[lo + |l|..pos] == r && was[pos] == op
  {
    var here := was[lo..pos + 1];
    assert |here| == |l| + |r| + 1 == pos + 1 - lo;
    assert was[lo..lo + |l|] == here[..|l|];
    forall i | 0 <= i < |r| ensures was[lo + |l|..pos][i] == r[i] { assert here[|l| + i] == was[lo + |l| + i]; }
    assert was[pos] == here[|l| + |r|];
  }

  /** e without the parentheses around it. */
  function Bare(e: Expr): (r: Expr)
    ensures !r.Paren? && Postfix(r) == Postfix(e) && Linked(r) == Linked(e)
  {
    if e.Paren? then Bare(e.arg) else e
  }

  // ----- input -----

  datatype Query = Accepted(items: seq<Item>) | Rejected(why: Refusal)

  datatype Refusal = Malformed | StatementTooComplex | TooManyItems

  const MAX_ITEMS: nat := (0x3fff_ffff - 8) / 8

  /** The input function of the type, as a function. */
  ghost predicate Accepts(buf: string, e: Expr)
    requires CString(buf)
  {
    Reads(buf, e) && Fits(e) && |Postfix(e)| <= MAX_ITEMS
  }

  /** By the grammar: the text spells the expression, which fits the stack and the size of a value. */
  ghost predicate Written(buf: string, e: Expr) {
    IsExpr(e) && IntQueryText.Spells(buf, 0, Tokens(e)) && Fits(e) && |Postfix(e)| <= MAX_ITEMS
  }

  lemma AcceptsExactly(buf: string, e: Expr)
    requires CString(buf)
    ensures Accepts(buf, e) <==> Written(buf, e)
  {
    IntQueryText.ReadsExactly(buf, e);
  }

  method BqarrIn(buf: string) returns (q: Query)
    requires CString(buf)
    ensures q.Accepted? <==> exists e :: Accepts(buf, e)
    ensures forall e :: Accepts(buf, e) ==> q == Accepted(Linked(e))
    ensures q.Accepted? <==> exists e :: Written(buf, e)
    ensures forall e :: Written(buf, e) ==> q == Accepted(Linked(e))
    ensures (exists e :: Reads(buf, e) && !Fits(e)) ==> q == Rejected(StatementTooComplex)
  {
    forall e ensures Accepts(buf, e) <==> Written(buf, e) { AcceptsExactly(buf, e); }
    var state := new WorkState(buf);
    var status := state.MakePolish();
    CompileExactly(buf);
    assert forall e :: Accepts(buf, e) ==> Reads(buf, e) && Fits(e);
    if status == BadSyntax { return Rejected(Malformed); }
    if status == Complex { return Rejected(StatementTooComplex); }
    var num := |state.str|;
    ghost var e :| Reads(buf, e) && Fits(e);
    assert state.str == Postfix(e);
    assert forall e' :: Accepts(buf, e') ==> Postfix(e') == Postfix(e);
    assert num <= MAX_ITEMS ==> Accepts(buf, e);
    if num > MAX_ITEMS { return Rejected(TooManyItems); }
    var items := state.str;
    var ptr := new Item[num](i requires 0 <= i < num => items[i]);
    assert ptr[..] == Postfix(e);
    var pos := FindOprnd(ptr, num - 1, 0, e);
    assert ptr[..] == Linked(e);
    forall e' | Accepts(buf, e') ensures Linked(e') == Linked(e) { SamePostfix(e, e'); }
    q := Accepted(ptr[..]);
  }

  /** Links depend on the postfix items only. */
  lemma {:induction false} SamePostfix(e: Expr, e': Expr)
    requires Postfix(e) == Postfix(e')
    ensures Linked(e) == Linked(e')
  {
    var x := SameSuffix(e, e', [], []);
  }

  /** Two expressions whose items end at the same place are the same up to parentheses. */
  lemma {:induction false} SameSuffix(e: Expr, e': Expr, a: seq<Item>, b: seq<Item>) returns (ok: bool)
    requires a + Postfix(e) == b + Postfix(e')
    ensures a == b && Postfix(e) == Postfix(e') && Linked(e) == Linked(e')
    decreases e, e'
  {
    ok := true;
    if e.Paren? {
      ok := SameSuffix(e.arg, e', a, b);
    } else if e'.Paren? {
      ok := SameSuffix(e, e'.arg, a, b);
    } else {
      SameLast(e, e', a, b);
      if e.Neg? {
        ok := SameSuffix(e.arg, e'.arg, a, b);
      } else if !e.Num? {
        ok := SameSuffix(e.r, e'.r, a + Postfix(e.l), b + Postfix(e'.l));
        ok := SameSuffix(e.l, e'.l, a, b);
      }
    }
  }

  /** The last items are the same, and so are the items before them. */
  lemma SameLast(e: Expr, e': Expr, a: seq<Item>, b: seq<Item>)
    requires !e.Paren? && !e'.Paren? && a + Postfix(e) == b + Postfix(e')
    ensures (e.Num? <==> e'.Num?) && (e.Neg? <==> e'.Neg?) && (e.Conj? <==> e'.Conj?)
    ensures e.Num? ==> e == e' && a == b
    ensures e.Neg? ==> a + Postfix(e.arg) == b + Postfix(e'.arg)
    ensures e.Conj? || e.Disj? ==> (a + Postfix(e.l)) + Postfix(e.r) == (b + Postfix(e'.l)) + Postfix(e'.r)
  {
    DropLast(a, Postfix(e), b, Postfix(e'));
    WithoutLast(e, a);
    WithoutLast(e', b);
  }

  lemma DropLast(a: seq<Item>, x: seq<Item>, b: seq<Item>, y: seq<Item>)
    requires a + x == b + y && x != [] && y != []
    ensures x[|x| - 1] == y[|y| - 1] && a + x[..|x| - 1] == b + y[..|y| - 1]
  {
    var all := a + x;
    assert all[|all| - 1] == x[|x| - 1] && all[|all| - 1] == (b + y)[|all| - 1];
    assert all[..|all| - 1] == a + x[..|x| - 1] && (b + y)[..|all| - 1] == b + y[..|y| - 1];
  }

  lemma WithoutLast(e: Expr, a: seq<Item>)
    requires !e.Paren?
    ensures var front, last := a + Postfix(e)[..|Postfix(e)| - 1], Postfix(e)[|Postfix(e)| - 1];
      match e
      case Num(v) => front == a && last == Item(true, v, 0)
      case Neg(x) => front == a + Postfix(x) && last == Item(false, '!' as int, 0)
      case Conj(l, r) => front == (a + Postfix(l)) + Postfix(r) && last == Item(false, '&' as int, 0)
      case Disj(l, r) => front == (a + Postfix(l)) + Postfix(r) && last == Item(false, '|' as int, 0)
  {
  }

  // ----- execute -----

  /** Following the links from cur stays inside the items and ends at values. */
  predicate Navigable(items: seq<Item>, cur: int)
    decreases cur
  {
    0 <= cur < |items| &&
    (items[cur].isVal ||
     (items[cur].val == '!' as int && Navigable(items, cur - 1)) ||
     (items[cur].val != '!' as int && items[cur].left < 0 && Navigable(items, cur + items[cur].left) &&
       Navigable(items, cur - 1)))
  }

  predicate Execute(items: seq<Item>, cur: int, calcnot: bool, chkcond: int -> bool)
    requires Navigable(items, cur)
    decreases cur
  {
    if items[cur].isVal then chkcond(cur)
    else if items[cur].val == '!' as int then (if calcnot then !Execute(items, cur - 1, calcnot, chkcond) else true)
    else if items[cur].val == '&' as int then
      Execute(items, cur + items[cur].left, calcnot, chkcond) && Execute(items, cur - 1, calcnot, chkcond)
    else
      Execute(items, cur + items[cur].left, calcnot, chkcond) || Execute(items, cur - 1, calcnot, chkcond)
  }

  /** The items of e end at cur. */
  ghost predicate Placed(items: seq<Item>, cur: int, e: Expr) {
    0 <= cur < |items| && |Linked(e)| <= cur + 1 && items[cur + 1 - |Linked(e)|..cur + 1] == Linked(e)
  }

  lemma PlacedUnary(items: seq<Item>, cur: int, e: Expr)
    requires Placed(items, cur, e)
    ensures e.Num? ==> items[cur] == Item(true, e.v, 0)
    ensures e.Neg? ==> items[cur] == Item(false, '!' as int, -1) && Placed(items, cur - 1, e.arg)
    ensures e.Paren? ==> Placed(items, cur, e.arg)
  {
    var lo := cur + 1 - |Linked(e)|;
    if e.Num? { assert items[lo..cur + 1] == [items[cur]]; }
    if e.Neg? { SpliceSlices(items, lo, cur, Linked(e.arg), [], Item(false, '!' as int, -1)); }
  }

  lemma PlacedBinary(items: seq<Item>, cur: int, e: Expr)
    requires (e.Conj? || e.Disj?) && Placed(items, cur, e)
    ensures items[cur] == Item(false, (if e.Conj? then '&' else '|') as int, ToInt16(-(|Linked(e.r)| + 1)))
    ensures Placed(items, cur - 1, e.r) && Placed(items, cur - 1 - |Linked(e.r)|, e.l)
  {
    var op := Item(false, (if e.Conj? then '&' else '|') as int, ToInt16(-(|Linked(e.r)| + 1)));
    var lo := cur + 1 - |Linked(e)|;
    assert Linked(e) == Linked(e.l) + Linked(e.r) + [op];
    SpliceSlices(items, lo, cur, Linked(e.l), Linked(e.r), op);
  }

  /** The items of e end at cur, spelled out along the links. */
  predicate Rooted(items: seq<Item>, cur: int, e: Expr)
    decreases e
  {
    0 <= cur < |items| &&
    match e
    case Num(v) => items[cur] == Item(true, v, 0)
    case Neg(a) => items[cur] == Item(false, '!' as int, -1) && Rooted(items, cur - 1, a)
    case Conj(l, r) =>
      items[cur] == Item(false, '&' as int, -(|Linked(r)| + 1)) && Rooted(items, cur - 1, r) &&
        Rooted(items, cur - 1 - |Linked(r)|, l)
    case Disj(l, r) =>
      items[cur] == Item(false, '|' as int, -(|Linked(r)| + 1)) && Rooted(items, cur - 1, r) &&
        Rooted(items, cur - 1 - |Linked(r)|, l)
    case Paren(a) => Rooted(items, cur, a)
  }

  /** Of a right operand with n items. */
  lemma LinkFits(n: nat)
    ensures ToInt16(-(n + 1)) == -(n + 1) <==> n < 0x8000
  {
  }

  lemma RootedBinary(items: seq<Item>, cur: int, e: Expr)
    requires (e.Conj? || e.Disj?) && Placed(items, cur, e)
    ensures Rooted(items, cur, e) <==>
      |Postfix(e.r)| < 0x8000 && Rooted(items, cur - 1, e.r) && Rooted(items, cur - 1 - |Linked(e.r)|, e.l)
  {
    PlacedBinary(items, cur, e);
    LinkFits(|Postfix(e.r)|);
  }

  /** The links lead to the operands exactly if no right operand has 32768 items or more. */
  lemma {:induction false} LinksReachExactly(items: seq<Item>, cur: int, e: Expr)
    requires Placed(items, cur, e)
    ensures Rooted(items, cur, e) <==> LinksFit(e)
    decreases e
  {
    if e.Conj? || e.Disj? {
      RootedBinary(items, cur, e);
      PlacedBinary(items, cur, e);
      LinksReachExactly(items, cur - 1, e.r);
      LinksReachExactly(items, cur - 1 - |Linked(e.r)|, e.l);
    } else {
      PlacedUnary(items, cur, e);
      if e.Neg? { LinksReachExactly(items, cur - 1, e.arg); }
      if e.Paren? { LinksReachExactly(items, cur, e.arg); }
    }
  }

  /** Evaluation over the links is the value of the infix expression. */
  lemma {:induction false} ExecuteIsValue(items: seq<Item>, cur: int, e: Expr, chkcond: int -> bool, holds: int -> bool)
    requires Rooted(items, cur, e)
    requires forall i :: 0 <= i < |items| && items[i].isVal ==> chkcond(i) == holds(items[i].val)
    ensures Navigable(items, cur)
    ensures Execute(items, cur, true, chkcond) <==> Value(e, holds)
    decreases e
  {
    match e
    case Num(_) =>
    case Neg(a) => ExecuteIsValue(items, cur - 1, a, chkcond, holds);
    case Conj(l, r) =>
      ExecuteIsValue(items, cur + items[cur].left, l, chkcond, holds);
      ExecuteIsValue(items, cur - 1, r, chkcond, holds);
    case Disj(l, r) =>
      ExecuteIsValue(items, cur + items[cur].left, l, chkcond, holds);
      ExecuteIsValue(items, cur - 1, r, chkcond, holds);
    case Paren(a) => ExecuteIsValue(items, cur, a, chkcond, holds);
  }

  /**
   From text to truth value: the links of an accepted query lead to its operands exactly if they fit,
   and then it evaluates as the expression it reads as.
   */
  lemma CompiledQueryIsItsExpression(buf: string, e: Expr, holds: int -> bool)
    requires CString(buf) && Accepts(buf, e)
    ensures var items := Linked(e);
      && (Rooted(items, |items| - 1, e) <==> LinksFit(e))
      && (LinksFit(e) ==> Navigable(items, |items| - 1))
      && (LinksFit(e) ==>
        (Execute(items, |items| - 1, true, i => 0 <= i < |items| && holds(items[i].val)) <==> Value(e, holds)))
  {
    var items := Linked(e);
    assert items[0..|items|] == items;
    LinksReachExactly(items, |items| - 1, e);
    if LinksFit(e) { ExecuteIsValue(items, |items| - 1, e, i => 0 <= i < |items| && holds(items[i].val), holds); }
  }

  // ----- NOT taken as true -----

  /** The ways to make an expression true: for each, the values it asks for, whatever stands under NOT. */
  function Ways(e: Expr): set<set<int>> {
    match e
    case Num(v) => {{v}}
    case Neg(_) => {{}}
    case Conj(l, r) => set x, y | x in Ways(l) && y in Ways(r) :: x + y
    case Disj(l, r) => Ways(l) + Ways(r)
    case Paren(a) => Ways(a)
  }

  predicate Met(w: set<int>, holds: int -> bool) {
    forall v :: v in w ==> holds(v)
  }

  ghost predicate SomeWay(e: Expr, holds: int -> bool) {
    exists w :: w in Ways(e) && Met(w, holds)
  }

  lemma WaysOfBoth(l: Expr, r: Expr, holds: int -> bool)
    ensures SomeWay(Conj(l, r), holds) <==> SomeWay(l, holds) && SomeWay(r, holds)
  {
    if SomeWay(l, holds) && SomeWay(r, holds) {
      var x :| x in Ways(l) && Met(x, holds);
      var y :| y in Ways(r) && Met(y, holds);
      assert x + y in Ways(Conj(l, r)) && Met(x + y, holds);
    }
    if SomeWay(Conj(l, r), holds) {
      var w :| w in Ways(Conj(l, r)) && Met(w, holds);
      var x, y :| x in Ways(l) && y in Ways(r) && w == x + y;
      assert Met(x, holds) && Met(y, holds);
    }
  }

  lemma WaysOfEither(l: Expr, r: Expr, holds: int -> bool)
    ensures SomeWay(Disj(l, r), holds) <==> SomeWay(l, holds) || SomeWay(r, holds)
  {
    assert Ways(Disj(l, r)) == Ways(l) + Ways(r);
    if SomeWay(l, holds) {
      var x :| x in Ways(l) && Met(x, holds);
      assert x in Ways(Disj(l, r));
    }
    if SomeWay(r, holds) {
      var x :| x in Ways(r) && Met(x, holds);
      assert x in Ways(Disj(l, r));
    }
  }

  /** What the evaluation of a lossy index says: some way to make the expression true has its values. */
  lemma {:induction false} RelaxedExactly(items: seq<Item>, cur: int, e: Expr, chkcond: int -> bool,
                                          holds: int -> bool)
    requires Rooted(items, cur, e)
    requires forall i :: 0 <= i < |items| && items[i].isVal ==> chkcond(i) == holds(items[i].val)
    ensures Navigable(items, cur)
    ensures Execute(items, cur, false, chkcond) <==> SomeWay(e, holds)
    decreases e
  {
    match e
    case Num(v) => assert {v} in Ways(e) && v in {v}; assert Met({v}, holds) <==> holds(v);
    case Neg(a) =>
      RelaxedExactly(items, cur - 1, a, chkcond, holds);
      assert {} in Ways(e) && Met({}, holds);
    case Conj(l, r) =>
      RelaxedExactly(items, cur + items[cur].left, l, chkcond, holds);
      RelaxedExactly(items, cur - 1, r, chkcond, holds);
      WaysOfBoth(l, r, holds);
    case Disj(l, r) =>
      RelaxedExactly(items, cur + items[cur].left, l, chkcond, holds);
      RelaxedExactly(items, cur - 1, r, chkcond, holds);
      WaysOfEither(l, r, holds);
    case Paren(a) => RelaxedExactly(items, cur, a, chkcond, holds);
  }

  /** With NOT taken as true, more conditions that hold can only help: the search in a lossy index is safe. */
  lemma {:induction false} LossyExecute(items: seq<Item>, cur: int, exact: int -> bool, lossy: int -> bool)
    requires Navigable(items, cur)
    requires forall i :: 0 <= i < |items| && items[i].isVal && exact(i) ==> lossy(i)
    ensures Execute(items, cur, true, exact) ==> Execute(items, cur, false, lossy)
    decreases cur
  {
    if !items[cur].isVal && items[cur].val != '!' as int {
      LossyExecute(items, cur + items[cur].left, exact, lossy);
      LossyExecute(items, cur - 1, exact, lossy);
    }
  }

  // ----- the test of one value against a sorted array -----

  ghost predicate Sorted(a: seq<int>) {
    forall i, j :: 0 <= i < j < |a| ==> a[i] <= a[j]
  }

  method CheckConditionArr(a: seq<int>, val: int) returns (found: bool)
    requires Sorted(a)
    ensures found <==> val in a
  {
    var low, high := 0, |a|;
    while low < high
      invariant 0 <= low <= high <= |a|
      invariant forall i :: 0 <= i < low ==> a[i] < val
      invariant forall i :: high <= i < |a| ==> a[i] > val
    {
      var middle := low + (high - low) / 2;
      if a[middle] == val { return true; }
      else if a[middle] < val { low := middle + 1; }
      else { high := middle; }
    }
    return false;
  }

  // ----- GIN -----

  /** The values of a query in the order in which GIN is asked for them. */
  function Extracted(items: seq<Item>): seq<int> {
    if items == [] then []
    else Extracted(items[..|items| - 1]) + (if items[|items| - 1].isVal then [items[|items| - 1].val] else [])
  }

  lemma {:induction false} ExtractedMembers(items: seq<Item>, v: int)
    ensures v in Extracted(items) <==> exists i :: 0 <= i < |items| && items[i].isVal && items[i].val == v
  {
    if items != [] {
      var n := |items| - 1;
      ExtractedMembers(items[..n], v);
      assert forall i :: 0 <= i < n ==> items[..n][i] == items[i];
    }
  }

  lemma {:induction false} ExtractedPrefix(items: seq<Item>, i: nat)
    requires i <= |items|
    ensures Extracted(items[..i]) <= Extracted(items)
    decreases |items| - i
  {
    if i < |items| {
      ExtractedPrefix(items, i + 1);
      assert items[..i + 1][..i] == items[..i];
    } else {
      assert items[..i] == items;
    }
  }

  /** The answers GIN got for the extracted values, put back at the positions of the values. */
  method MapCheck(items: seq<Item>, check: seq<bool>) returns (mapped: seq<bool>)
    requires |check| == |Extracted(items)|
    ensures |mapped| == |items|
    ensures forall i :: 0 <= i < |items| && items[i].isVal ==>
      |Extracted(items[..i])| < |check| && mapped[i] == check[|Extracted(items[..i])|]
  {
    mapped := [];
    var j := 0;
    for i := 0 to |items|
      invariant |mapped| == i && j == |Extracted(items[..i])|
      invariant forall k :: 0 <= k < i && items[k].isVal ==>
        |Extracted(items[..k])| < |check| && mapped[k] == check[|Extracted(items[..k])|]
    {
      assert items[..i + 1][..i] == items[..i];
      ExtractedPrefix(items, i + 1);
      if items[i].isVal {
        mapped := mapped + [check[j]];
        j := j + 1;
      } else {
        mapped := mapped + [false];
      }
    }
  }

  /** Evaluation asks for nothing but the values. */
  lemma {:induction false} ExecuteAgrees(items: seq<Item>, cur: int, f: int -> bool, g: int -> bool)
    requires Navigable(items, cur)
    requires forall i :: 0 <= i < |items| && items[i].isVal ==> f(i) == g(i)
    ensures Execute(items, cur, true, f) == Execute(items, cur, true, g)
    decreases cur
  {
    if !items[cur].isVal {
      ExecuteAgrees(items, cur - 1, f, g);
      if items[cur].val != '!' as int { ExecuteAgrees(items, cur + items[cur].left, f, g); }
    }
  }

  lemma MappedAgrees(items: seq<Item>, check: seq<bool>, mapped: seq<bool>, a: set<int>, i: nat)
    requires |check| == |Extracted(items)| && forall j :: 0 <= j < |check| ==> check[j] == (Extracted(items)[j] in a)
    requires i < |items| == |mapped| && items[i].isVal
    requires |Extracted(items[..i])| < |check| && mapped[i] == check[|Extracted(items[..i])|]
    ensures mapped[i] == (items[i].val in a)
  {
    ExtractedPrefix(items, i + 1);
    assert items[..i + 1][..i] == items[..i];
    assert Extracted(items[..i + 1])[|Extracted(items[..i])|] == items[i].val;
  }

  /** Evaluation over remapped answers is evaluation on the array, and the expression if the links fit. */
  method GinBoolConsistent(items: seq<Item>, check: seq<bool>, ghost a: set<int>) returns (res: bool)
    requires Navigable(items, |items| - 1)
    requires |check| == |Extracted(items)|
    requires forall j :: 0 <= j < |check| ==> check[j] == (Extracted(items)[j] in a)
    ensures res <==> Execute(items, |items| - 1, true, i => 0 <= i < |items| && items[i].val in a)
    ensures forall e :: items == Linked(e) && LinksFit(e) ==> (res <==> Value(e, v => v in a))
  {
    var mapped := MapCheck(items, check);
    var chk := i => 0 <= i < |mapped| && mapped[i];
    ghost var direct := i => 0 <= i < |items| && items[i].val in a;
    forall i | 0 <= i < |items| && items[i].isVal ensures chk(i) == direct(i) {
      MappedAgrees(items, check, mapped, a, i);
    }
    ExecuteAgrees(items, |items| - 1, chk, direct);
    forall e | items == Linked(e) && LinksFit(e)
      ensures Execute(items, |items| - 1, true, direct) <==> Value(e, v => v in a)
    {
      assert items[0..|items|] == items;
      LinksReachExactly(items, |items| - 1, e);
      ExecuteIsValue(items, |items| - 1, e, direct, v => v in a);
    }
    res := Execute(items, |items| - 1, true, chk);
  }

  predicate ContainsRequired(items: seq<Item>, cur: int)
    requires Navigable(items, cur)
    decreases cur
  {
    if items[cur].isVal then true
    else if items[cur].val == '!' as int then false
    else if items[cur].val == '&' as int then
      ContainsRequired(items, cur + items[cur].left) || ContainsRequired(items, cur - 1)
    else
      ContainsRequired(items, cur + items[cur].left) && ContainsRequired(items, cur - 1)
  }

  /** There is a required value exactly if, with NOT taken as true and no value present, the query is false. */
  lemma {:induction false} RequiredExactly(items: seq<Item>, cur: int)
    requires Navigable(items, cur)
    ensures ContainsRequired(items, cur) <==> !Execute(items, cur, false, i => false)
    decreases cur
  {
    if !items[cur].isVal && items[cur].val != '!' as int {
      RequiredExactly(items, cur + items[cur].left);
      RequiredExactly(items, cur - 1);
    }
  }

  /** On the expression: every way to make it true without looking under NOT asks for some value. */
  lemma RequiredIsNeeded(items: seq<Item>, cur: int, e: Expr)
    requires Rooted(items, cur, e)
    ensures Navigable(items, cur)
    ensures ContainsRequired(items, cur) <==> {} !in Ways(e)
  {
    var none: int -> bool := v => false;
    RelaxedExactly(items, cur, e, i => false, none);
    RequiredExactly(items, cur);
    forall w: set<int> | Met(w, none) ensures w == {} {
      assert forall v :: v in w ==> none(v);
    }
    assert Met({}, none);
  }

  /** A query with a required value is true of no array that lacks all of its values. */
  lemma {:induction false} RequiredValue(items: seq<Item>, cur: int, chkcond: int -> bool)
    requires Navigable(items, cur)
    requires ContainsRequired(items, cur) && Execute(items, cur, true, chkcond)
    ensures exists i :: 0 <= i < |items| && items[i].isVal && chkcond(i)
    decreases cur
  {
    if !items[cur].isVal {
      if items[cur].val == '&' as int {
        if ContainsRequired(items, cur - 1) { RequiredValue(items, cur - 1, chkcond); }
        else { RequiredValue(items, cur + items[cur].left, chkcond); }
      } else {
        if Execute(items, cur - 1, true, chkcond) { RequiredValue(items, cur - 1, chkcond); }
        else { RequiredValue(items, cur + items[cur].left, chkcond); }
      }
    }
  }

  predicate TrueOf(items: seq<Item>, a: set<int>) {
    Navigable(items, |items| - 1) && Execute(items, |items| - 1, true, i => 0 <= i < |items| && items[i].val in a)
  }

  /**
   What GIN is to look for: the values of the query; and all rows if it may hold of arrays with none of
   them.
   */
  method QueryExtract(items: seq<Item>) returns (entries: seq<int>, all: bool)
    requires items == [] || Navigable(items, |items| - 1)
    ensures entries == Extracted(items)
    ensures forall v :: v in entries <==> exists i :: 0 <= i < |items| && items[i].isVal && items[i].val == v
    ensures items != [] ==> (all <==> Execute(items, |items| - 1, false, i => false))
    ensures !all ==> forall a :: TrueOf(items, a) ==> exists v :: v in entries && v in a
  {
    all := false;
    if items != [] {
      RequiredExactly(items, |items| - 1);
      all := !ContainsRequired(items, |items| - 1);
    }
    entries := Values(items);
    forall v ensures v in entries <==> exists i :: 0 <= i < |items| && items[i].isVal && items[i].val == v {
      ExtractedMembers(items, v);
    }
    if !all {
      forall a | TrueOf(items, a) ensures exists v :: v in entries && v in a {
        RequiredValue(items, |items| - 1, i => 0 <= i < |items| && items[i].val in a);
        var i :| 0 <= i < |items| && items[i].isVal && items[i].val in a;
        assert items[i].val in entries;
      }
    }
  }

  method Values(items: seq<Item>) returns (entries: seq<int>)
    ensures entries == Extracted(items)
  {
    entries := [];
    for i := 0 to |items|
      invariant entries == Extracted(items[..i])
    {
      assert items[..i + 1][..i] == items[..i];
      if items[i].isVal { entries := entries + [items[i].val]; }
    }
    assert items[..|items|] == items;
  }
}
