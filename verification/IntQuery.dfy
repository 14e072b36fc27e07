/**
 Boolean queries over integers (the query_int type): infix expressions with ! over & over |, and
 the translation of their tokens to postfix with an operator stack of fixed depth.
 */
module IntQuery {

  datatype Token = Val(v: int) | Opr(op: char) | Open | Close | End | Err

  /** An item of the postfix notation; left is the distance to the left operand, kept in 16 bits. */
  datatype Item = Item(isVal: bool, val: int, left: int)

  const STACKDEPTH: nat := 16

  // ----- the infix language -----

  datatype Expr =
    | Num(v: int)
    | Neg(arg: Expr)
    | Conj(l: Expr, r: Expr)
    | Disj(l: Expr, r: Expr)
    | Paren(arg: Expr)

  /** A number, a negated factor or a parenthesized expression. */
  predicate IsFactor(e: Expr)
    decreases e, 0
  {
    match e
    case Num(_) => true
    case Neg(a) => IsFactor(a)
    case Paren(a) => IsExpr(a)
    case _ => false
  }

  predicate IsTerm(e: Expr)
    decreases e, 1
  {
    if e.Conj? then IsTerm(e.l) && IsFactor(e.r) else IsFactor(e)
  }

  predicate IsExpr(e: Expr)
    decreases e, 2
  {
    if e.Disj? then IsExpr(e.l) && IsTerm(e.r) else IsTerm(e)
  }

  function Tokens(e: Expr): (ts: seq<Token>)
    ensures |ts| > 0
  {
    match e
    case Num(v) => [Val(v)]
    case Neg(a) => [Opr('!')] + Tokens(a)
    case Conj(l, r) => Tokens(l) + [Opr('&')] + Tokens(r)
    case Disj(l, r) => Tokens(l) + [Opr('|')] + Tokens(r)
    case Paren(a) => [Open] + Tokens(a) + [Close]
  }

  predicate Value(e: Expr, holds: int -> bool) {
    match e
    case Num(v) => holds(v)
    case Neg(a) => !Value(a, holds)
    case Conj(l, r) => Value(l, holds) && Value(r, holds)
    case Disj(l, r) => Value(l, holds) || Value(r, holds)
    case Paren(a) => Value(a, holds)
  }

  // ----- postfix -----

  function ValItem(v: int): Item {
    Item(true, v, 0)
  }

  function OprItem(op: char): Item {
    Item(false, op as int, 0)
  }

  function Postfix(e: Expr): (items: seq<Item>)
    ensures |items| > 0
  {
    match e
    case Num(v) => [ValItem(v)]
    case Neg(a) => Postfix(a) + [OprItem('!')]
    case Conj(l, r) => Postfix(l) + Postfix(r) + [OprItem('&')]
    case Disj(l, r) => Postfix(l) + Postfix(r) + [OprItem('|')]
    case Paren(a) => Postfix(a)
  }

  // ----- makepol as a function of the tokens -----

  datatype Outcome = Done(out: seq<Item>, rest: seq<Token>) | SyntaxError | TooComplex

  predicate Tight(op: char) {
    op == '&' || op == '!'
  }

  /** The stack without the & and ! on its top. */
  function Loosened(stack: seq<char>): (s: seq<char>)
    ensures s <= stack
    ensures |s| > 0 ==> !Tight(s[|s| - 1])
  {
    if |stack| > 0 && Tight(stack[|stack| - 1]) then Loosened(stack[..|stack| - 1]) else stack
  }

  /** Those operators, as they are moved to the output. */
  function Popped(stack: seq<char>): seq<Item> {
    if |stack| > 0 && Tight(stack[|stack| - 1]) then [OprItem(stack[|stack| - 1])] + Popped(stack[..|stack| - 1])
      else []
  }

  function Flushed(stack: seq<char>): seq<Item> {
    if stack == [] then [] else [OprItem(stack[|stack| - 1])] + Flushed(stack[..|stack| - 1])
  }

  function MakePol(ts: seq<Token>, stack: seq<char>, out: seq<Item>): (o: Outcome)
    ensures o.Done? ==> |o.rest| <= |ts|
    decreases |ts|
  {
    if ts == [] then SyntaxError
    else match ts[0]
      case Val(v) => MakePol(ts[1..], Loosened(stack), out + [ValItem(v)] + Popped(stack))
      case Opr(op) =>
        if |stack| > 0 && op == '|' then MakePol(ts[1..], stack, out + [OprItem(op)])
        else if |stack| >= STACKDEPTH then TooComplex
        else MakePol(ts[1..], stack + [op], out)
      case Open =>
        (match MakePol(ts[1..], [], out)
         case Done(inner, rest) => MakePol(rest, Loosened(stack), inner + Popped(stack))
         case SyntaxError => SyntaxError
         case TooComplex => TooComplex)
      case Close => Done(out + Flushed(stack), ts[1..])
      case End => Done(out + Flushed(stack), ts)
      case Err => SyntaxError
  }

  // ----- when the stack is deep enough -----

  /** A factor met with n operators on the stack. */
  predicate FactorFits(e: Expr, n: nat)
    requires IsFactor(e)
    decreases e, 0
  {
    match e
    case Num(_) => true
    case Neg(a) => n < STACKDEPTH && FactorFits(a, n + 1)
    case Paren(a) => Fits(a)
  }

  predicate TermFits(e: Expr, n: nat)
    requires IsTerm(e)
    decreases e, 1
  {
    if e.Conj? then TermFits(e.l, n) && FactorFits(e.r, n + 1) else FactorFits(e, n)
  }

  /** The exact condition under which the 16 places of the stack suffice. */
  predicate Fits(e: Expr)
    requires IsExpr(e)
    decreases e, 2
  {
    if e.Disj? then Fits(e.l) && TermFits(e.r, 1) else TermFits(e, 0)
  }

  // ----- makepol on the tokens of an expression -----

  lemma {:induction false} FactorPol(e: Expr, stack: seq<char>, out: seq<Item>, rest: seq<Token>)
    requires IsFactor(e) && |stack| <= STACKDEPTH
    ensures MakePol(Tokens(e) + rest, stack, out) ==
            if FactorFits(e, |stack|) then MakePol(rest, Loosened(stack), out + Postfix(e) + Popped(stack))
              else TooComplex
    decreases e, 0
  {
    var ts := Tokens(e) + rest;
    match e
    case Num(v) => assert ts[1..] == rest;
    case Neg(a) =>
      assert ts[1..] == Tokens(a) + rest;
      if |stack| < STACKDEPTH {
        FactorPol(a, stack + ['!'], out, rest);
        assert (stack + ['!'])[..|stack|] == stack;
        assert out + Postfix(a) + Popped(stack + ['!']) == out + Postfix(e) + Popped(stack);
      }
    case Paren(a) =>
      assert ts[1..] == Tokens(a) + ([Close] + rest);
      ExprPol(a, out, [Close] + rest);
      assert ([Close] + rest)[1..] == rest;
  }

  lemma {:induction false} TermPol(e: Expr, stack: seq<char>, out: seq<Item>, rest: seq<Token>)
    requires IsTerm(e) && (stack == [] || stack == ['|'])
    ensures MakePol(Tokens(e) + rest, stack, out) ==
            if TermFits(e, |stack|) then MakePol(rest, stack, out + Postfix(e)) else TooComplex
    decreases e, 1
  {
    if e.Conj? {
      var tail := [Opr('&')] + (Tokens(e.r) + rest);
      assert Tokens(e) + rest == Tokens(e.l) + tail;
      TermPol(e.l, stack, out, tail);
      if TermFits(e.l, |stack|) {
        assert tail[1..] == Tokens(e.r) + rest;
        var stack' := stack + ['&'];
        FactorPol(e.r, stack', out + Postfix(e.l), rest);
        assert stack'[..|stack|] == stack;
        assert Loosened(stack') == stack && Popped(stack') == [OprItem('&')];
        assert out + Postfix(e.l) + Postfix(e.r) + [OprItem('&')] == out + Postfix(e);
      }
    } else {
      FactorPol(e, stack, out, rest);
      assert Loosened(stack) == stack && Popped(stack) == [];
      assert out + Postfix(e) + [] == out + Postfix(e);
    }
  }

  /** Everything of an expression but the last |, which waits on the stack. */
  function Pending(e: Expr): seq<Item> {
    if e.Disj? then Postfix(e.l) + Postfix(e.r) else Postfix(e)
  }

  function PendingStack(e: Expr): seq<char> {
    if e.Disj? then ['|'] else []
  }

  lemma {:induction false} ExprRun(e: Expr, out: seq<Item>, rest: seq<Token>)
    requires IsExpr(e)
    ensures MakePol(Tokens(e) + rest, [], out) ==
            if Fits(e) then MakePol(rest, PendingStack(e), out + Pending(e)) else TooComplex
    decreases e, 2
  {
    if e.Disj? {
      var tail := [Opr('|')] + (Tokens(e.r) + rest);
      assert Tokens(e) + rest == Tokens(e.l) + tail;
      ExprRun(e.l, out, tail);
      if Fits(e.l) {
        assert tail[1..] == Tokens(e.r) + rest;
        assert out + Postfix(e.l) == if e.l.Disj? then out + Pending(e.l) + [OprItem('|')] else out + Pending(e.l);
        assert MakePol(tail, PendingStack(e.l), out + Pending(e.l)) ==
          MakePol(tail[1..], ['|'], out + Postfix(e.l)) by {
          assert [] + ['|'] == ['|'];
        }
        TermPol(e.r, ['|'], out + Postfix(e.l), rest);
        assert out + Postfix(e.l) + Postfix(e.r) == out + Pending(e);
      }
    } else {
      TermPol(e, [], out, rest);
    }
  }

  /** Up to the token that ends it, an expression is translated to its postfix form. */
  lemma {:induction false} ExprPol(e: Expr, out: seq<Item>, rest: seq<Token>)
    requires IsExpr(e) && |rest| > 0 && (rest[0] == Close || rest[0] == End)
    ensures MakePol(Tokens(e) + rest, [], out) ==
            if Fits(e) then Done(out + Postfix(e), if rest[0] == Close then rest[1..] else rest) else TooComplex
    decreases e, 3
  {
    ExprRun(e, out, rest);
    assert Flushed(['|']) == [OprItem('|')] by { assert ['|'][..0] == []; }
    assert out + Pending(e) + Flushed(PendingStack(e)) == out + Postfix(e);
  }

  // ----- the tokens that the scanner can deliver -----

  /** A token stream without error: operands and operators alternate, parentheses match. */
  predicate Legal(ts: seq<Token>, operand: bool, depth: nat)
    decreases |ts|
  {
    ts != [] &&
    if operand then
      match ts[0]
      case Val(_) => Legal(ts[1..], false, depth)
      case Opr(op) => op == '!' && Legal(ts[1..], true, depth)
      case Open => Legal(ts[1..], true, depth + 1)
      case _ => false
    else
      match ts[0]
      case Opr(op) => (op == '&' || op == '|') && Legal(ts[1..], true, depth)
      case Close => depth > 0 && Legal(ts[1..], false, depth - 1)
      case End => depth == 0 && |ts| == 1
      case _ => false
  }

  lemma {:induction false} ParseFactor(ts: seq<Token>, depth: nat) returns (e: Expr, rest: seq<Token>)
    requires Legal(ts, true, depth)
    ensures IsFactor(e) && ts == Tokens(e) + rest && Legal(rest, false, depth)
    decreases |ts|, 0
  {
    match ts[0]
    case Val(v) =>
      e, rest := Num(v), ts[1..];
      assert ts == [ts[0]] + ts[1..];
    case Opr(_) =>
      var a;
      a, rest := ParseFactor(ts[1..], depth);
      e := Neg(a);
      assert ts == [ts[0]] + ts[1..] == Tokens(e) + rest;
    case Open =>
      var a;
      a, rest := ParseExpr(ts[1..], depth + 1);
      e := Paren(a);
      assert rest[0] == Close;
      var after := rest[1..];
      assert rest == [Close] + after;
      assert ts == [ts[0]] + ts[1..];
      assert Tokens(e) + after == [Open] + (Tokens(a) + ([Close] + after));
      rest := after;
  }

  lemma {:induction false} ParseTerm(ts: seq<Token>, depth: nat) returns (e: Expr, rest: seq<Token>)
    requires Legal(ts, true, depth)
    ensures IsTerm(e) && ts == Tokens(e) + rest && Legal(rest, false, depth) && rest[0] != Opr('&')
    decreases |ts|, 2
  {
    e, rest := ParseFactor(ts, depth);
    while rest[0] == Opr('&')
      invariant IsTerm(e) && ts == Tokens(e) + rest && Legal(rest, false, depth)
      decreases |rest|
    {
      var f, rest' := ParseFactor(rest[1..], depth);
      assert rest == [Opr('&')] + rest[1..];
      assert Tokens(Conj(e, f)) + rest' == Tokens(e) + ([Opr('&')] + (Tokens(f) + rest'));
      e, rest := Conj(e, f), rest';
    }
  }

  /** Every legal stream is the token sequence of an expression, up to a closing parenthesis or the end. */
  lemma {:induction false} ParseExpr(ts: seq<Token>, depth: nat) returns (e: Expr, rest: seq<Token>)
    requires Legal(ts, true, depth)
    ensures IsExpr(e) && ts == Tokens(e) + rest && Legal(rest, false, depth) && (rest[0] == Close || rest[0] == End)
    decreases |ts|, 3
  {
    e, rest := ParseTerm(ts, depth);
    while rest[0] == Opr('|')
      invariant IsExpr(e) && ts == Tokens(e) + rest && Legal(rest, false, depth) && rest[0] != Opr('&')
      decreases |rest|
    {
      var f, rest' := ParseTerm(rest[1..], depth);
      assert rest == [Opr('|')] + rest[1..];
      assert Tokens(Disj(e, f)) + rest' == Tokens(e) + ([Opr('|')] + (Tokens(f) + rest'));
      e, rest := Disj(e, f), rest';
    }
  }
}
