/**
 Splitting NOT EXISTS over a disjunction: a worklist replaces, one OR at a time, a condition by one
 copy for each argument of the first OR it contains.
 */
module SplitOptimize {
  import opened Sql

  // ----- ORs outside subqueries -----

  predicate HasOr(c: Cond) {
    match c
    case Or(_) => true
    case And(cs) => exists i :: 0 <= i < |cs| && HasOr(cs[i])
    case Not(a) => HasOr(a)
    case _ => false
  }

  /** Every OR reached has an argument. */
  predicate NonEmptyOrs(c: Cond) {
    match c
    case Or(cs) => |cs| > 0 && forall i :: 0 <= i < |cs| ==> NonEmptyOrs(cs[i])
    case And(cs) => forall i :: 0 <= i < |cs| ==> NonEmptyOrs(cs[i])
    case Not(a) => NonEmptyOrs(a)
    case _ => true
  }

  function OrCount(c: Cond): nat
    decreases c
  {
    match c
    case Or(cs) => 1 + OrCountOf(cs)
    case And(cs) => OrCountOf(cs)
    case Not(a) => OrCount(a)
    case _ => 0
  }

  function OrCountOf(cs: seq<Cond>): nat
    decreases cs
  {
    if cs == [] then 0 else OrCount(cs[0]) + OrCountOf(cs[1..])
  }

  // ----- the context of one pass, and the pass -----

  datatype Context = Context(which: nat, duplicate: bool, stop: bool)

  function SplitRel(st: Context, c: Cond): (Cond, Context)
    decreases c
  {
    match c
    case Or(cs) =>
      if !st.stop && st.which < |cs| then
        (cs[st.which],
         if |cs| == st.which + 1 then Context(st.which, false, true) else Context(st.which + 1, true, true))
      else
        var (rs, st1) := SplitArgs(st, cs); (Or(rs), st1)
    case And(cs) => var (rs, st1) := SplitArgs(st, cs); (And(rs), st1)
    case Not(a) => var (r, st1) := SplitRel(st, a); (Not(r), st1)
    case _ => (c, st)
  }

  function SplitArgs(st: Context, cs: seq<Cond>): (out: (seq<Cond>, Context))
    ensures |out.0| == |cs|
    decreases cs
  {
    if cs == [] then ([], st)
    else
      var (r, st1) := SplitRel(st, cs[0]);
      var (rs, st2) := SplitArgs(st1, cs[1..]);
      ([r] + rs, st2)
  }

  /** A pass over the arguments of the root; the root itself is copied. */
  function SplitRoot(st: Context, c: Cond): (Cond, Context) {
    match c
    case Or(cs) => var (rs, st1) := SplitArgs(st, cs); (Or(rs), st1)
    case And(cs) => var (rs, st1) := SplitArgs(st, cs); (And(rs), st1)
    case Not(a) => var (r, st1) := SplitRel(st, a); (Not(r), st1)
    case _ => (c, st)
  }

  class ContextSplit {
    var which: nat
    var duplicate: bool
    var stop: bool

    constructor ()
      ensures State() == Context(0, true, false)
    {
      which, duplicate, stop := 0, true, false;
    }

    function State(): Context
      reads this
    {
      Context(which, duplicate, stop)
    }

    method Visit(c: Cond) returns (r: Cond)
      requires !stop && HasOr(c) ==> which < FirstOr(c)
      modifies this
      ensures (r, State()) == SplitRel(old(State()), c)
      decreases c
    {
      match c
      case Or(cs) =>
        if !stop {
          stop := true;
          r := cs[which];
          if |cs| == which + 1 {
            duplicate := false;
          } else {
            which := which + 1;
            duplicate := true;
          }
        } else {
          var rs := VisitArgs(cs);
          r := Or(rs);
        }
      case And(cs) => var rs := VisitArgs(cs); r := And(rs);
      case Not(a) => var x := Visit(a); r := Not(x);
      case _ => r := c;
    }

    method VisitRoot(c: Cond) returns (r: Cond)
      requires !c.Or? && !stop && HasOr(c) && which < FirstOr(c)
      modifies this
      ensures (r, State()) == SplitRoot(old(State()), c)
    {
      match c
      case And(cs) => var rs := VisitArgs(cs); r := And(rs);
      case Not(a) => var x := Visit(a); r := Not(x);
    }

    method VisitArgs(cs: seq<Cond>) returns (rs: seq<Cond>)
      requires !stop && HasOr(And(cs)) ==> which < FirstOrOf(cs)
      modifies this
      ensures (rs, State()) == SplitArgs(old(State()), cs)
      decreases cs
    {
      rs := [];
      if cs != [] {
        if !stop && HasOr(And(cs)) && !HasOr(cs[0]) { TailHasOr(cs); SplitNone(State(), cs[0]); }
        else if !stop && !HasOr(And(cs)) { NoOrTail(cs); SplitNone(State(), cs[0]); }
        else if !stop { SplitPicks(State(), cs[0]); }
        else { SplitStopped(State(), cs[0]); }
        var r := Visit(cs[0]);
        var rest := VisitArgs(cs[1..]);
        rs := [r] + rest;
      }
    }
  }

  // ----- what one pass does: it replaces the first OR by one of its arguments -----

  /** The number of arguments of the first OR. */
  function FirstOr(c: Cond): nat
    requires HasOr(c)
    decreases c
  {
    match c
    case Or(cs) => |cs|
    case And(cs) => FirstOrOf(cs)
    case Not(a) => FirstOr(a)
  }

  function FirstOrOf(cs: seq<Cond>): nat
    requires HasOr(And(cs))
    decreases cs
  {
    if HasOr(cs[0]) then FirstOr(cs[0]) else TailHasOr(cs); FirstOrOf(cs[1..])
  }

  function Pick(c: Cond, i: nat): Cond
    requires HasOr(c) && i < FirstOr(c)
    decreases c
  {
    match c
    case Or(cs) => cs[i]
    case And(cs) => And(PickOf(cs, i))
    case Not(a) => Not(Pick(a, i))
  }

  function PickOf(cs: seq<Cond>, i: nat): seq<Cond>
    requires HasOr(And(cs)) && i < FirstOrOf(cs)
    decreases cs
  {
    if HasOr(cs[0]) then [Pick(cs[0], i)] + cs[1..] else TailHasOr(cs); [cs[0]] + PickOf(cs[1..], i)
  }

  lemma TailHasOr(cs: seq<Cond>)
    requires HasOr(And(cs)) && !HasOr(cs[0])
    ensures HasOr(And(cs[1..]))
  {
    var i :| 0 <= i < |cs| && HasOr(cs[i]);
    assert cs[1..][i - 1] == cs[i];
  }

  lemma NoOrTail(cs: seq<Cond>)
    requires cs != [] && !HasOr(And(cs))
    ensures !HasOr(cs[0]) && !HasOr(And(cs[1..]))
  {
    forall i | 0 <= i < |cs[1..]| ensures !HasOr(cs[1..][i]) { assert cs[1..][i] == cs[i + 1]; }
  }

  lemma {:induction false} SplitStopped(st: Context, c: Cond)
    requires st.stop
    ensures SplitRel(st, c) == (c, st)
    decreases c
  {
    match c
    case Or(cs) => SplitArgsStopped(st, cs);
    case And(cs) => SplitArgsStopped(st, cs);
    case Not(a) => SplitStopped(st, a);
    case _ =>
  }

  lemma {:induction false} SplitArgsStopped(st: Context, cs: seq<Cond>)
    requires st.stop
    ensures SplitArgs(st, cs) == (cs, st)
    decreases cs
  {
    if cs != [] { SplitStopped(st, cs[0]); SplitArgsStopped(st, cs[1..]); assert cs == [cs[0]] + cs[1..]; }
  }

  lemma {:induction false} SplitNone(st: Context, c: Cond)
    requires !HasOr(c)
    ensures SplitRel(st, c) == (c, st)
    decreases c
  {
    match c
    case And(cs) => SplitArgsNone(st, cs);
    case Not(a) => SplitNone(st, a);
    case _ =>
  }

  lemma {:induction false} SplitArgsNone(st: Context, cs: seq<Cond>)
    requires !HasOr(And(cs))
    ensures SplitArgs(st, cs) == (cs, st)
    decreases cs
  {
    if cs != [] { NoOrTail(cs); SplitNone(st, cs[0]); SplitArgsNone(st, cs[1..]); assert cs == [cs[0]] + cs[1..]; }
  }

  function After(which: nat, n: nat): Context {
    if n == which + 1 then Context(which, false, true) else Context(which + 1, true, true)
  }

  lemma {:induction false} SplitPicks(st: Context, c: Cond)
    requires HasOr(c) && !st.stop && st.which < FirstOr(c)
    ensures SplitRel(st, c) == (Pick(c, st.which), After(st.which, FirstOr(c)))
    decreases c
  {
    match c
    case Or(_) =>
    case And(cs) => SplitArgsPick(st, cs);
    case Not(a) => SplitPicks(st, a);
  }

  lemma {:induction false} SplitArgsPick(st: Context, cs: seq<Cond>)
    requires HasOr(And(cs)) && !st.stop && st.which < FirstOrOf(cs)
    ensures SplitArgs(st, cs) == (PickOf(cs, st.which), After(st.which, FirstOrOf(cs)))
    decreases cs
  {
    if HasOr(cs[0]) {
      SplitPicks(st, cs[0]);
      SplitArgsStopped(After(st.which, FirstOr(cs[0])), cs[1..]);
    } else {
      TailHasOr(cs);
      SplitNone(st, cs[0]);
      SplitArgsPick(st, cs[1..]);
    }
  }

  lemma SplitRootPicks(st: Context, c: Cond)
    requires HasOr(c) && !c.Or? && !st.stop && st.which < FirstOr(c)
    ensures SplitRoot(st, c) == (Pick(c, st.which), After(st.which, FirstOr(c)))
  {
    match c
    case And(cs) => SplitArgsPick(st, cs);
    case Not(a) => SplitPicks(st, a);
  }

  // ----- reference: one argument chosen for every OR that is reached -----

  function Choices(c: Cond): seq<Cond>
    decreases c
  {
    match c
    case Or(cs) => ChoicesAny(cs)
    case And(cs) => Conjoined(ChoicesAll(cs))
    case Not(a) => Negated(Choices(a))
    case _ => [c]
  }

  function ChoicesAny(cs: seq<Cond>): seq<Cond>
    decreases cs
  {
    if cs == [] then [] else Choices(cs[0]) + ChoicesAny(cs[1..])
  }

  function ChoicesAll(cs: seq<Cond>): seq<seq<Cond>>
    decreases cs
  {
    if cs == [] then [[]] else Product(Choices(cs[0]), ChoicesAll(cs[1..]))
  }

  function Prepend(x: Cond, tails: seq<seq<Cond>>): (r: seq<seq<Cond>>)
    ensures |r| == |tails|
    ensures forall i :: 0 <= i < |tails| ==> r[i] == [x] + tails[i]
  {
    seq(|tails|, i requires 0 <= i < |tails| => [x] + tails[i])
  }

  function Product(heads: seq<Cond>, tails: seq<seq<Cond>>): seq<seq<Cond>> {
    if heads == [] then [] else Prepend(heads[0], tails) + Product(heads[1..], tails)
  }

  function Conjoined(ts: seq<seq<Cond>>): (r: seq<Cond>)
    ensures |r| == |ts|
    ensures forall i :: 0 <= i < |ts| ==> r[i] == And(ts[i])
  {
    seq(|ts|, i requires 0 <= i < |ts| => And(ts[i]))
  }

  function Negated(cs: seq<Cond>): (r: seq<Cond>)
    ensures |r| == |cs|
    ensures forall i :: 0 <= i < |cs| ==> r[i] == Not(cs[i])
  {
    seq(|cs|, i requires 0 <= i < |cs| => Not(cs[i]))
  }

  /** The number of choices: sums over OR, products over AND. */
  function Count(c: Cond): nat
    decreases c
  {
    match c
    case Or(cs) => Sum(cs)
    case And(cs) => Times(cs)
    case Not(a) => Count(a)
    case _ => 1
  }

  function Sum(cs: seq<Cond>): nat
    decreases cs
  {
    if cs == [] then 0 else Count(cs[0]) + Sum(cs[1..])
  }

  function Times(cs: seq<Cond>): nat
    decreases cs
  {
    if cs == [] then 1 else Count(cs[0]) * Times(cs[1..])
  }

  lemma {:induction false} ProductSize(heads: seq<Cond>, tails: seq<seq<Cond>>)
    ensures |Product(heads, tails)| == |heads| * |tails|
  {
    if heads != [] { ProductSize(heads[1..], tails); }
  }

  lemma {:induction false} ChoicesCount(c: Cond)
    ensures |Choices(c)| == Count(c)
    decreases c
  {
    match c
    case Or(cs) => ChoicesAnyCount(cs);
    case And(cs) => ChoicesAllCount(cs);
    case Not(a) => ChoicesCount(a);
    case _ =>
  }

  lemma {:induction false} ChoicesAnyCount(cs: seq<Cond>)
    ensures |ChoicesAny(cs)| == Sum(cs)
    decreases cs
  {
    if cs != [] { ChoicesCount(cs[0]); ChoicesAnyCount(cs[1..]); }
  }

  lemma {:induction false} ChoicesAllCount(cs: seq<Cond>)
    ensures |ChoicesAll(cs)| == Times(cs)
    decreases cs
  {
    if cs != [] {
      ChoicesCount(cs[0]);
      ChoicesAllCount(cs[1..]);
      ProductSize(Choices(cs[0]), ChoicesAll(cs[1..]));
    }
  }

  // ----- the choices of a condition are those of its picks, in order -----

  lemma {:induction false} ChoicesOrFree(c: Cond)
    requires !HasOr(c)
    ensures Choices(c) == [c]
    decreases c
  {
    match c
    case And(cs) => ChoicesAllOrFree(cs);
    case Not(a) => ChoicesOrFree(a);
    case _ =>
  }

  lemma {:induction false} ChoicesAllOrFree(cs: seq<Cond>)
    requires !HasOr(And(cs))
    ensures ChoicesAll(cs) == [cs]
    decreases cs
  {
    if cs != [] {
      NoOrTail(cs);
      ChoicesOrFree(cs[0]);
      ChoicesAllOrFree(cs[1..]);
      assert cs == [cs[0]] + cs[1..];
      assert Product([cs[0]], [cs[1..]]) == Prepend(cs[0], [cs[1..]]) + Product([], [cs[1..]]);
    }
  }

  /** Choices of the picks from i on. */
  function PickChoices(c: Cond, i: nat): seq<Cond>
    requires HasOr(c) && i <= FirstOr(c)
    decreases FirstOr(c) - i
  {
    if i == FirstOr(c) then [] else Choices(Pick(c, i)) + PickChoices(c, i + 1)
  }

  function PickChoicesOf(cs: seq<Cond>, i: nat): seq<seq<Cond>>
    requires HasOr(And(cs)) && i <= FirstOrOf(cs)
    decreases FirstOrOf(cs) - i
  {
    if i == FirstOrOf(cs) then [] else ChoicesAll(PickOf(cs, i)) + PickChoicesOf(cs, i + 1)
  }

  lemma {:induction false} ChoicesSplit(c: Cond)
    requires HasOr(c)
    ensures Choices(c) == PickChoices(c, 0)
    decreases c, 1
  {
    match c
    case Or(cs) => AnySplit(c, cs, 0); assert cs[0..] == cs;
    case And(cs) => ChoicesAllSplit(cs); ConjoinedSplit(c, cs, 0);
    case Not(a) => ChoicesSplit(a); NegatedSplit(c, a, 0);
  }

  lemma {:induction false} AnySplit(c: Cond, cs: seq<Cond>, i: nat)
    requires c == Or(cs) && i <= |cs|
    ensures ChoicesAny(cs[i..]) == PickChoices(c, i)
    decreases |cs| - i
  {
    if i < |cs| { AnySplit(c, cs, i + 1); assert cs[i..][1..] == cs[i + 1..]; }
  }

  lemma ConjoinedConcat(a: seq<seq<Cond>>, b: seq<seq<Cond>>)
    ensures Conjoined(a + b) == Conjoined(a) + Conjoined(b)
  {
  }

  lemma ConjoinedStep(c: Cond, cs: seq<Cond>, i: nat)
    requires c == And(cs) && HasOr(c) && i < FirstOrOf(cs)
    requires Conjoined(PickChoicesOf(cs, i + 1)) == PickChoices(c, i + 1)
    ensures Conjoined(PickChoicesOf(cs, i)) == PickChoices(c, i)
  {
    ConjoinedConcat(ChoicesAll(PickOf(cs, i)), PickChoicesOf(cs, i + 1));
  }

  lemma {:induction false} ConjoinedSplit(c: Cond, cs: seq<Cond>, i: nat)
    requires c == And(cs) && HasOr(c) && i <= FirstOrOf(cs)
    ensures Conjoined(PickChoicesOf(cs, i)) == PickChoices(c, i)
    decreases FirstOrOf(cs) - i
  {
    if i < FirstOrOf(cs) {
      ConjoinedSplit(c, cs, i + 1);
      ConjoinedStep(c, cs, i);
    }
  }

  lemma {:induction false} NegatedSplit(c: Cond, a: Cond, i: nat)
    requires c == Not(a) && HasOr(c) && i <= FirstOr(a)
    ensures Negated(PickChoices(a, i)) == PickChoices(c, i)
    decreases FirstOr(a) - i
  {
    if i < FirstOr(a) { NegatedSplit(c, a, i + 1); }
  }

  lemma {:induction false} ChoicesAllSplit(cs: seq<Cond>)
    requires HasOr(And(cs))
    ensures ChoicesAll(cs) == PickChoicesOf(cs, 0)
    decreases cs
  {
    if HasOr(cs[0]) {
      ChoicesSplit(cs[0]);
      HeadSplit(cs, 0);
    } else {
      TailHasOr(cs);
      ChoicesOrFree(cs[0]);
      ChoicesAllSplit(cs[1..]);
      TailSplit(cs, 0);
      SingleProduct(cs[0], ChoicesAll(cs[1..]));
    }
  }

  lemma SingleProduct(x: Cond, tails: seq<seq<Cond>>)
    ensures Product([x], tails) == Prepend(x, tails)
  {
    assert Product([x], tails) == Prepend(x, tails) + Product([], tails);
  }

  lemma {:induction false} ProductConcat(a: seq<Cond>, b: seq<Cond>, tails: seq<seq<Cond>>)
    ensures Product(a + b, tails) == Product(a, tails) + Product(b, tails)
  {
    if a == [] {
      assert a + b == b;
    } else {
      var front := Prepend(a[0], tails);
      assert (a + b)[1..] == a[1..] + b && (a + b)[0] == a[0];
      assert Product(a + b, tails) == front + Product(a[1..] + b, tails);
      ProductConcat(a[1..], b, tails);
      ConcatAssociates(front, Product(a[1..], tails), Product(b, tails));
    }
  }

  lemma ConcatAssociates<T>(a: seq<T>, b: seq<T>, c: seq<T>)
    ensures a + (b + c) == a + b + c
  {
  }

  lemma HeadPick(cs: seq<Cond>, i: nat)
    requires HasOr(And(cs)) && HasOr(cs[0]) && i < FirstOr(cs[0])
    ensures ChoicesAll(PickOf(cs, i)) == Product(Choices(Pick(cs[0], i)), ChoicesAll(cs[1..]))
  {
    assert PickOf(cs, i)[1..] == cs[1..];
  }

  lemma HeadStep(cs: seq<Cond>, i: nat)
    requires HasOr(And(cs)) && HasOr(cs[0]) && i < FirstOr(cs[0])
    requires Product(PickChoices(cs[0], i + 1), ChoicesAll(cs[1..])) == PickChoicesOf(cs, i + 1)
    ensures Product(PickChoices(cs[0], i), ChoicesAll(cs[1..])) == PickChoicesOf(cs, i)
  {
    HeadPick(cs, i);
    ProductConcat(Choices(Pick(cs[0], i)), PickChoices(cs[0], i + 1), ChoicesAll(cs[1..]));
  }

  lemma {:induction false} HeadSplit(cs: seq<Cond>, i: nat)
    requires HasOr(And(cs)) && HasOr(cs[0]) && i <= FirstOr(cs[0])
    ensures Product(PickChoices(cs[0], i), ChoicesAll(cs[1..])) == PickChoicesOf(cs, i)
    decreases FirstOr(cs[0]) - i
  {
    if i < FirstOr(cs[0]) {
      HeadSplit(cs, i + 1);
      HeadStep(cs, i);
    }
  }

  lemma {:induction false} TailSplit(cs: seq<Cond>, i: nat)
    requires HasOr(And(cs)) && !HasOr(cs[0]) && HasOr(And(cs[1..])) && i <= FirstOrOf(cs[1..])
    ensures Prepend(cs[0], PickChoicesOf(cs[1..], i)) == PickChoicesOf(cs, i)
    decreases FirstOrOf(cs) - i
  {
    if i < FirstOrOf(cs[1..]) {
      TailSplit(cs, i + 1);
      ChoicesOrFree(cs[0]);
      SingleProduct(cs[0], ChoicesAll(PickOf(cs[1..], i)));
      assert PickOf(cs, i)[1..] == PickOf(cs[1..], i);
    }
  }

  // ----- picking removes an OR -----

  lemma {:induction false} OrCountAt(cs: seq<Cond>, i: nat)
    requires i < |cs|
    ensures OrCount(cs[i]) <= OrCountOf(cs)
  {
    if i > 0 { OrCountAt(cs[1..], i - 1); }
  }

  lemma {:induction false} PickShrinks(c: Cond, i: nat)
    requires HasOr(c) && i < FirstOr(c)
    ensures OrCount(Pick(c, i)) < OrCount(c)
    ensures NonEmptyOrs(c) ==> NonEmptyOrs(Pick(c, i))
    decreases c
  {
    match c
    case Or(cs) => OrCountAt(cs, i);
    case And(cs) => PickOfShrinks(cs, i);
    case Not(a) => PickShrinks(a, i);
  }

  lemma {:induction false} PickOfShrinks(cs: seq<Cond>, i: nat)
    requires HasOr(And(cs)) && i < FirstOrOf(cs)
    ensures OrCountOf(PickOf(cs, i)) < OrCountOf(cs)
    ensures NonEmptyOrs(And(cs)) ==> NonEmptyOrs(And(PickOf(cs, i)))
    decreases cs
  {
    if HasOr(cs[0]) {
      PickShrinks(cs[0], i);
      assert PickOf(cs, i)[1..] == cs[1..];
    } else {
      TailHasOr(cs);
      PickOfShrinks(cs[1..], i);
      assert PickOf(cs, i)[1..] == PickOf(cs[1..], i);
      if NonEmptyOrs(And(cs)) {
        assert NonEmptyOrs(And(cs[1..]));
        var ps := PickOf(cs, i);
        forall k | 0 <= k < |ps| ensures NonEmptyOrs(ps[k]) { if k > 0 { assert ps[k] == ps[1..][k - 1]; } }
      }
    }
  }

  lemma {:induction false} FirstOrPositive(c: Cond)
    requires HasOr(c) && NonEmptyOrs(c)
    ensures FirstOr(c) > 0
    decreases c
  {
    match c
    case Or(_) =>
    case And(cs) => FirstOrOfPositive(cs);
    case Not(a) => FirstOrPositive(a);
  }

  lemma {:induction false} FirstOrOfPositive(cs: seq<Cond>)
    requires HasOr(And(cs)) && NonEmptyOrs(And(cs))
    ensures FirstOrOf(cs) > 0
    decreases cs
  {
    if HasOr(cs[0]) { FirstOrPositive(cs[0]); }
    else { TailHasOr(cs); assert NonEmptyOrs(And(cs[1..])); FirstOrOfPositive(cs[1..]); }
  }

  // ----- the worklist as a machine -----

  datatype Mode = Idle | Busy(backup: Cond, ctx: Context)

  datatype Machine = Machine(pile: seq<Cond>, result: seq<Cond>, mode: Mode)

  function Initial(c: Cond): Machine {
    Machine([c], [], Idle)
  }

  predicate Halted(m: Machine) {
    m.mode.Idle? && m.pile == []
  }

  /** One turn of the inner loop when busy, of the outer loop otherwise. */
  function Step(m: Machine): Machine {
    match m.mode
    case Busy(backup, ctx) =>
      var (piece, ctx') := SplitRoot(ctx.(stop := false), backup);
      Machine(m.pile + [piece], m.result, if ctx'.duplicate then Busy(backup, ctx') else Idle)
    case Idle =>
      if m.pile == [] then m
      else if !HasOr(m.pile[0]) then Machine(m.pile[1..], m.result + [m.pile[0]], Idle)
      else Machine(m.pile[1..], m.result, Busy(m.pile[0], Context(0, true, false)))
  }

  function Run(m: Machine, n: nat): Machine {
    if n == 0 then m else Step(Run(m, n - 1))
  }

  lemma {:induction false} RunAdds(m: Machine, a: nat, b: nat)
    ensures Run(Run(m, a), b) == Run(m, a + b)
  {
    if b > 0 { RunAdds(m, a, b - 1); }
  }

  ghost predicate Splittable(c: Cond) {
    NonEmptyOrs(c) && !c.Or?
  }

  ghost predicate Inv(m: Machine) {
    && (forall i :: 0 <= i < |m.pile| ==> Splittable(m.pile[i]))
    && (forall i :: 0 <= i < |m.result| ==> !HasOr(m.result[i]))
    && (m.mode.Busy? ==> Splittable(m.mode.backup) && HasOr(m.mode.backup) && m.mode.ctx.which < FirstOr(m.mode.backup))
  }

  /** A bound on the turns that a pile entry still costs. */
  function Cost(c: Cond): nat
    decreases OrCount(c), 1, 0
  {
    if HasOr(c) then 2 + CostFrom(c, 0) else 1
  }

  function CostFrom(c: Cond, i: nat): nat
    requires HasOr(c) && i <= FirstOr(c)
    decreases OrCount(c), 0, FirstOr(c) - i
  {
    if i == FirstOr(c) then 0 else PickShrinks(c, i); 1 + Cost(Pick(c, i)) + CostFrom(c, i + 1)
  }

  function PileCost(pile: seq<Cond>): nat {
    if pile == [] then 0 else Cost(pile[0]) + PileCost(pile[1..])
  }

  function Measure(m: Machine): nat
    requires Inv(m)
  {
    PileCost(m.pile) + if m.mode.Busy? then 1 + CostFrom(m.mode.backup, m.mode.ctx.which) else 0
  }

  function PileChoices(pile: seq<Cond>): multiset<Cond> {
    if pile == [] then multiset{} else multiset(Choices(pile[0])) + PileChoices(pile[1..])
  }

  /** What the machine has produced and will produce. */
  function Total(m: Machine): multiset<Cond>
    requires Inv(m)
  {
    multiset(m.result) + PileChoices(m.pile) +
    if m.mode.Busy? then multiset(PickChoices(m.mode.backup, m.mode.ctx.which)) else multiset{}
  }

  lemma {:induction false} PileAppend(pile: seq<Cond>, x: Cond)
    ensures PileCost(pile + [x]) == PileCost(pile) + Cost(x)
    ensures PileChoices(pile + [x]) == PileChoices(pile) + multiset(Choices(x))
  {
    var more := pile + [x];
    if pile != [] {
      PileAppend(pile[1..], x);
      assert more[0] == pile[0] && more[1..] == pile[1..] + [x];
      Regroup(multiset(Choices(pile[0])), PileChoices(pile[1..]), multiset(Choices(x)));
    } else {
      assert more == [x] && more[1..] == [];
    }
  }

  lemma Regroup(a: multiset<Cond>, b: multiset<Cond>, c: multiset<Cond>)
    ensures a + (b + c) == (a + b) + c
  {
  }

  lemma {:induction false} PickKeepsRoot(c: Cond, i: nat)
    requires Splittable(c) && HasOr(c) && i < FirstOr(c)
    ensures Splittable(Pick(c, i))
  {
    PickShrinks(c, i);
  }

  lemma BusyStep(m: Machine)
    requires Inv(m) && m.mode.Busy?
    ensures var m' := Step(m); Inv(m') && Measure(m') < Measure(m) && Total(m') == Total(m)
  {
    var c, ctx := m.mode.backup, m.mode.ctx;
    SplitRootPicks(ctx.(stop := false), c);
    PickKeepsRoot(c, ctx.which);
    PileAppend(m.pile, Pick(c, ctx.which));
    assert PickChoices(c, ctx.which) == Choices(Pick(c, ctx.which)) + PickChoices(c, ctx.which + 1);
  }

  lemma IdleStep(m: Machine)
    requires Inv(m) && m.mode.Idle? && m.pile != []
    ensures var m' := Step(m); Inv(m') && Measure(m') < Measure(m) && Total(m') == Total(m)
  {
    var c := m.pile[0];
    if HasOr(c) {
      FirstOrPositive(c);
      ChoicesSplit(c);
    } else {
      ChoicesOrFree(c);
      assert m.pile == [c] + m.pile[1..];
    }
  }

  lemma {:induction false} Finishes(m: Machine) returns (n: nat)
    requires Inv(m)
    ensures var m' := Run(m, n); Halted(m') && Inv(m') && Total(m') == Total(m)
    decreases Measure(m)
  {
    if Halted(m) {
      n := 0;
    } else {
      if m.mode.Busy? { BusyStep(m); } else { IdleStep(m); }
      var k := Finishes(Step(m));
      assert Run(m, 1) == Step(m) by { assert Run(m, 0) == m; }
      RunAdds(m, 1, k);
      n := k + 1;
    }
  }

  // ----- an OR at the root is never split -----

  ghost predicate Stuck(m: Machine) {
    (m.mode.Busy? && m.mode.backup.Or?) || exists i :: 0 <= i < |m.pile| && m.pile[i].Or?
  }

  lemma {:induction false} StuckForever(m: Machine, n: nat)
    requires Stuck(m)
    ensures Stuck(Run(m, n))
  {
    if n > 0 {
      StuckForever(m, n - 1);
      StuckStep(Run(m, n - 1));
    }
  }

  lemma StuckStep(m: Machine)
    requires Stuck(m)
    ensures Stuck(Step(m))
  {
    var m' := Step(m);
    if m.mode.Busy? {
      if m.mode.backup.Or? {
        assert m'.pile[|m.pile|].Or?;
      } else {
        var i :| 0 <= i < |m.pile| && m.pile[i].Or?;
        assert m'.pile[i] == m.pile[i];
      }
    } else {
      var i :| 0 <= i < |m.pile| && m.pile[i].Or?;
      if i > 0 { assert m'.pile[i - 1] == m.pile[i]; }
    }
  }

  ghost predicate Terminates(c: Cond) {
    exists n: nat :: Halted(Run(Initial(c), n))
  }

  /** The worklist ends exactly when the root is not an OR. */
  lemma TerminatesExactly(c: Cond)
    requires NonEmptyOrs(c)
    ensures Terminates(c) <==> !c.Or?
  {
    if c.Or? {
      assert Initial(c).pile[0].Or?;
      forall n: nat ensures !Halted(Run(Initial(c), n)) { StuckForever(Initial(c), n); }
    } else {
      var n := Finishes(Initial(c));
    }
  }

  /** The inner loop: one pass over backup for each argument of its first OR. */
  method Duplicate(backup: Cond, pile: seq<Cond>, ghost m: Machine) returns (pile': seq<Cond>, ghost m': Machine)
    requires Inv(m) && m.pile == pile && m.mode == Busy(backup, Context(0, true, false))
    ensures Inv(m') && m' == Machine(pile', m.result, Idle)
    ensures Total(m') == Total(m) && Measure(m') < Measure(m)
    ensures PileChoices(pile') == PileChoices(pile) + multiset(Choices(backup))
  {
    var ctx := new ContextSplit();
    pile', m' := pile, m;
    while true
      invariant Inv(m') && m' == Machine(pile', m.result, Busy(backup, ctx.State()))
      invariant Total(m') == Total(m) && Measure(m') <= Measure(m)
      decreases Measure(m')
    {
      BusyStep(m');
      ctx.stop := false;
      var newNode := ctx.VisitRoot(backup);
      m' := Step(m');
      pile' := pile' + [newNode];
      if !ctx.duplicate { break; }
    }
    PileGains(m, m', backup);
  }

  /** What a condition taken from the pile brings back. */
  lemma PileGains(m: Machine, m': Machine, backup: Cond)
    requires Inv(m) && m.mode == Busy(backup, Context(0, true, false)) && Inv(m') && m'.mode == Idle
    requires m'.result == m.result && Total(m') == Total(m)
    ensures PileChoices(m'.pile) == PileChoices(m.pile) + multiset(Choices(backup))
  {
    ChoicesSplit(backup);
    Cancel(multiset(m.result), PileChoices(m'.pile), PileChoices(m.pile), multiset(PickChoices(backup, 0)));
  }

  lemma Cancel(a: multiset<Cond>, b: multiset<Cond>, c: multiset<Cond>, d: multiset<Cond>)
    requires a + b + multiset{} == a + c + d
    ensures b == c + d
  {
    forall x: Cond ensures b[x] == (c + d)[x] { assert (a + b + multiset{})[x] == (a + c + d)[x]; }
  }

  /** The outer loop: a FIFO pile of conditions that still may contain an OR. */
  method TrueSplit(negNode: Cond) returns (result: seq<Cond>)
    requires NonEmptyOrs(negNode) && !negNode.Or?
    ensures multiset(result) == multiset(Choices(negNode))
    ensures forall i :: 0 <= i < |result| ==> !HasOr(result[i])
  {
    result := [];
    var pile := [negNode];
    ghost var m := Initial(negNode);
    assert PileChoices(m.pile) == multiset(Choices(negNode)) by { assert PileChoices(m.pile[1..]) == multiset{}; }
    while |pile| != 0
      invariant Inv(m) && m == Machine(pile, result, Idle)
      invariant Total(m) == multiset(Choices(negNode))
      decreases Measure(m)
    {
      IdleStep(m);
      m := Step(m);
      var backup := pile[0];
      pile := pile[1..];
      if !HasOr(backup) {
        result := result + [backup];
      } else {
        pile, m := Duplicate(backup, pile, m);
      }
    }
  }
}
