/** Printing a query, and reading back what was printed. */
module IntQueryPrint {
  import opened IntQuery
  import opened IntQueryScan
  import opened IntQueryExec

  // ----- decimal numbers -----

  function DigitChar(d: nat): char
    requires d < 10
  {
    '0' + d as char
  }

  function Digits(n: nat): (s: string)
    ensures |s| > 0
  {
    if n < 10 then [DigitChar(n)] else Digits(n / 10) + [DigitChar(n % 10)]
  }

  function Decimal(v: int): (s: string)
    ensures |s| > 0
  {
    if v < 0 then "-" + Digits(-v) else Digits(v)
  }

  predicate AllDigits(s: string) {
    forall i :: 0 <= i < |s| ==> IsDigit(s[i])
  }

  lemma {:induction false} DigitsValueSnoc(s: string, d: nat, acc: nat)
    requires AllDigits(s) && d < 10
    ensures DigitsValue(s + [DigitChar(d)], 10, acc) == DigitsValue(s, 10, acc) * 10 + d
  {
    if s == [] {
      assert (s + [DigitChar(d)])[1..] == [];
    } else {
      assert (s + [DigitChar(d)])[1..] == s[1..] + [DigitChar(d)];
      DigitsValueSnoc(s[1..], d, acc * 10 + (s[0] - '0') as int);
    }
  }

  lemma {:induction false} DigitsMean(n: nat)
    ensures AllDigits(Digits(n)) && DigitsValue(Digits(n), 10, 0) == n
    ensures Digits(n)[0] == '0' <==> n == 0
  {
    if n < 10 {
      assert Digits(n)[1..] == [];
    } else {
      DigitsMean(n / 10);
      DigitsValueSnoc(Digits(n / 10), n % 10, 0);
    }
  }

  function Pow10(k: nat): nat {
    if k == 0 then 1 else 10 * Pow10(k - 1)
  }

  lemma {:induction false} DigitsLength(n: nat, k: nat)
    requires k > 0 && n < Pow10(k)
    ensures |Digits(n)| <= k
  {
    if n >= 10 { DigitsLength(n / 10, k - 1); }
  }

  lemma DecimalMeans(v: int)
    requires IsInt32(v)
    ensures Strtol(Decimal(v)) == v && |Decimal(v)| <= 11
    ensures (IsDigit(Decimal(v)[0]) || Decimal(v)[0] == '-') && AllDigits(Decimal(v)[1..])
  {
    var n: nat := if v < 0 then -v else v;
    DigitsMean(n);
    assert Pow10(10) == 10000000000 by { assert Pow10(5) == 100000; assert Pow10(8) == 100000000; }
    DigitsLength(n, 10);
    if v < 0 { assert Decimal(v)[1..] == Digits(n); }
    if n == 0 { assert Digits(n) == "0"; assert DigitsValue("0", 8, 0) == 0 by { assert "0"[1..] == ""; } }
  }

  // ----- infix -----

  function Infix(e: Expr, first: bool): (s: string)
    ensures |s| > 0
  {
    match e
    case Num(v) => Decimal(v)
    case Neg(a) => if a.Num? then "!" + Infix(a, false) else "!" + ("( " + Infix(a, true) + " )")
    case Conj(l, r) => Infix(l, false) + " & " + Infix(r, false)
    case Disj(l, r) =>
      if first then Infix(l, false) + " | " + Infix(r, false)
      else "( " + (Infix(l, false) + " | " + Infix(r, false)) + " )"
    case Paren(a) => Infix(a, first)
  }

  /** What the items of a query can stand for: 32-bit values, no parentheses. */
  predicate Stored(e: Expr) {
    match e
    case Num(v) => IsInt32(v)
    case Neg(a) => Stored(a)
    case Conj(l, r) => Stored(l) && Stored(r)
    case Disj(l, r) => Stored(l) && Stored(r)
    case Paren(_) => false
  }

  /** The items of e end at cur, whatever their links. */
  predicate Laid(items: seq<Item>, cur: int, e: Expr)
    decreases e
  {
    0 <= cur < |items| &&
    match e
    case Num(v) => items[cur].isVal && items[cur].val == v
    case Neg(a) => !items[cur].isVal && items[cur].val == '!' as int && Laid(items, cur - 1, a)
    case Conj(l, r) =>
      !items[cur].isVal && items[cur].val == '&' as int && Laid(items, cur - 1, r) &&
        Laid(items, cur - 1 - |Linked(r)|, l)
    case Disj(l, r) =>
      !items[cur].isVal && items[cur].val == '|' as int && Laid(items, cur - 1, r) &&
        Laid(items, cur - 1 - |Linked(r)|, l)
    case Paren(a) => Laid(items, cur, a)
  }

  lemma {:induction false} PlacedIsLaid(items: seq<Item>, cur: int, e: Expr)
    requires Placed(items, cur, e)
    ensures Laid(items, cur, e)
    decreases e
  {
    PlacedUnary(items, cur, e);
    match e
    case Num(_) =>
    case Neg(a) => PlacedIsLaid(items, cur - 1, a);
    case Conj(l, r) =>
      PlacedBinary(items, cur, e);
      PlacedIsLaid(items, cur - 1, r);
      PlacedIsLaid(items, cur - 1 - |Linked(r)|, l);
    case Disj(l, r) =>
      PlacedBinary(items, cur, e);
      PlacedIsLaid(items, cur - 1, r);
      PlacedIsLaid(items, cur - 1 - |Linked(r)|, l);
    case Paren(a) => PlacedIsLaid(items, cur, a);
  }

  class Printer {
    const items: seq<Item>
    var curpol: int
    var text: string

    constructor (items: seq<Item>, curpol: int)
      ensures this.items == items && this.curpol == curpol && text == ""
    {
      this.items, this.curpol, this.text := items, curpol, "";
    }

    method Print(first: bool, ghost e: Expr)
      requires Stored(e) && Laid(items, curpol, e)
      modifies this
      ensures text == old(text) + Infix(e, first) && curpol == old(curpol) - |Linked(e)|
      decreases e
    {
      if items[curpol].isVal {
        text := text + Decimal(items[curpol].val);
        curpol := curpol - 1;
      } else if items[curpol].val == '!' as int {
        text := text + "!";
        curpol := curpol - 1;
        var isopr := !items[curpol].isVal;
        if isopr { text := text + "( "; }
        Print(isopr, e.arg);
        if isopr { text := text + " )"; }
        ghost var arg := Infix(e.arg, isopr);
        assert isopr ==> old(text) + "!" + "( " + arg + " )" == old(text) + ("!" + ("( " + arg + " )"));
        assert !isopr ==> old(text) + "!" + arg == old(text) + ("!" + arg);
      } else {
        PrintBinary(first, e);
      }
    }

    method PrintBinary(first: bool, ghost e: Expr)
      requires (e.Conj? || e.Disj?) && Stored(e) && Laid(items, curpol, e)
      modifies this
      ensures text == old(text) + Infix(e, first) && curpol == old(curpol) - |Linked(e)|
      decreases e, 0
    {
      var op := if items[curpol].val == '|' as int then '|' else '&';
      curpol := curpol - 1;
      if op == '|' && !first { text := text + "( "; }
      var nrm := new Printer(items, curpol);
      nrm.Print(false, e.r);
      curpol := nrm.curpol;
      Print(false, e.l);
      text := text + [' ', op, ' '] + nrm.text;
      if op == '|' && !first { text := text + " )"; }
      ghost var l, r := Infix(e.l, false), Infix(e.r, false);
      assert nrm.text == r;
      Regroup(old(text), l, [' ', op, ' '], r);
    }
  }

  /** The text as it is appended, and as one piece. */
  lemma Regroup(t: string, l: string, op: string, r: string)
    ensures t + l + op + r == t + (l + op + r)
    ensures t + "( " + l + op + r + " )" == t + ("( " + (l + op + r) + " )")
  {
  }

  // ----- what the printed text reads as -----

  /** l & r, where r may itself be a conjunction: printed without parentheses, it reads from the left. */
  function Join(l: Expr, r: Expr): Expr {
    if r.Conj? then Conj(Join(l, r.l), r.r) else Conj(l, r)
  }

  function Reread(e: Expr, first: bool): Expr {
    match e
    case Num(_) => e
    case Neg(a) => if a.Num? then Neg(a) else Neg(Paren(Reread(a, true)))
    case Conj(l, r) => Join(Reread(l, false), Reread(r, false))
    case Disj(l, r) =>
      var d := Disj(Reread(l, false), Reread(r, false));
      if first then d else Paren(d)
    case Paren(a) => Reread(a, first)
  }

  /** No negation directly under a negation. */
  predicate Shallow(e: Expr) {
    match e
    case Num(_) => true
    case Neg(a) => !a.Neg? && Shallow(a)
    case Conj(l, r) => Shallow(l) && Shallow(r)
    case Disj(l, r) => Shallow(l) && Shallow(r)
    case Paren(a) => Shallow(a)
  }

  lemma {:induction false} ShallowFactorFits(e: Expr, n: nat)
    requires IsFactor(e) && Shallow(e) && n + 1 < STACKDEPTH
    ensures FactorFits(e, n)
    decreases e, 0
  {
    match e
    case Num(_) =>
    case Neg(a) => if a.Paren? { ShallowFits(a.arg); }
    case Paren(a) => ShallowFits(a);
  }

  lemma {:induction false} ShallowTermFits(e: Expr, n: nat)
    requires IsTerm(e) && Shallow(e) && n <= 1
    ensures TermFits(e, n)
    decreases e, 1
  {
    if e.Conj? { ShallowTermFits(e.l, n); ShallowFactorFits(e.r, n + 1); } else { ShallowFactorFits(e, n); }
  }

  lemma {:induction false} ShallowFits(e: Expr)
    requires IsExpr(e) && Shallow(e)
    ensures Fits(e)
    decreases e, 2
  {
    if e.Disj? { ShallowFits(e.l); ShallowTermFits(e.r, 1); } else { ShallowTermFits(e, 0); }
  }

  lemma {:induction false} JoinMeans(l: Expr, r: Expr, holds: int -> bool)
    requires IsTerm(l) && IsTerm(r) && Shallow(l) && Shallow(r)
    ensures IsTerm(Join(l, r)) && Shallow(Join(l, r))
    ensures Tokens(Join(l, r)) == Tokens(l) + [Opr('&')] + Tokens(r)
    ensures Value(Join(l, r), holds) <==> Value(l, holds) && Value(r, holds)
    decreases r
  {
    if r.Conj? {
      JoinMeans(l, r.l, holds);
      assert Tokens(l) + [Opr('&')] + Tokens(r.l) + [Opr('&')] + Tokens(r.r) == Tokens(l) + [Opr('&')] + Tokens(r);
    }
  }

  lemma {:induction false} RereadMeans(e: Expr, first: bool, holds: int -> bool)
    requires Stored(e)
    ensures IsExpr(Reread(e, first)) && Shallow(Reread(e, first)) && (!first ==> IsTerm(Reread(e, first)))
    ensures Value(Reread(e, first), holds) <==> Value(e, holds)
  {
    match e
    case Num(_) =>
    case Neg(a) =>
      if !a.Num? { RereadMeans(a, true, holds); assert IsFactor(Paren(Reread(a, true))); }
      assert IsFactor(Reread(e, first));
    case Conj(l, r) =>
      RereadMeans(l, false, holds);
      RereadMeans(r, false, holds);
      JoinMeans(Reread(l, false), Reread(r, false), holds);
    case Disj(l, r) =>
      RereadMeans(l, false, holds);
      RereadMeans(r, false, holds);
      assert IsExpr(Disj(Reread(l, false), Reread(r, false)));
      assert IsFactor(Paren(Disj(Reread(l, false), Reread(r, false))));
  }

  // ----- scanning the printed text -----

  /** The tokens of e in front of others. */
  function Emit(e: Expr, rest: seq<Token>): seq<Token> {
    match e
    case Num(v) => [Val(v)] + rest
    case Neg(a) => [Opr('!')] + Emit(a, rest)
    case Conj(l, r) => Emit(l, [Opr('&')] + Emit(r, rest))
    case Disj(l, r) => Emit(l, [Opr('|')] + Emit(r, rest))
    case Paren(a) => [Open] + Emit(a, [Close] + rest)
  }

  lemma {:induction false} EmitIsTokens(e: Expr, rest: seq<Token>)
    ensures Emit(e, rest) == Tokens(e) + rest
  {
    match e
    case Num(_) =>
    case Neg(a) => EmitIsTokens(a, rest);
    case Conj(l, r) => EmitIsTokens(l, [Opr('&')] + Emit(r, rest)); EmitIsTokens(r, rest);
    case Disj(l, r) => EmitIsTokens(l, [Opr('|')] + Emit(r, rest)); EmitIsTokens(r, rest);
    case Paren(a) => EmitIsTokens(a, [Close] + rest);
  }

  lemma {:induction false} EmitJoin(l: Expr, r: Expr, rest: seq<Token>)
    ensures Emit(Join(l, r), rest) == Emit(l, [Opr('&')] + Emit(r, rest))
    decreases r
  {
    if r.Conj? { EmitJoin(l, r.l, [Opr('&')] + Emit(r.r, rest)); }
  }

  /** The text t stands in buf at pos. */
  ghost predicate TextAt(buf: string, pos: nat, t: string) {
    pos + |t| <= |buf| && buf[pos..pos + |t|] == t
  }

  lemma TextSplit(buf: string, pos: nat, a: string, b: string)
    requires TextAt(buf, pos, a + b)
    ensures TextAt(buf, pos, a) && TextAt(buf, pos + |a|, b)
  {
    var all := buf[pos..pos + |a| + |b|];
    assert buf[pos..pos + |a|] == all[..|a|] == a;
    assert buf[pos + |a|..pos + |a| + |b|] == all[|a|..] == b;
  }

  lemma CharAt(buf: string, pos: nat, t: string, i: nat)
    requires TextAt(buf, pos, t) && i < |t|
    ensures At(buf, pos + i) == t[i]
  {
    assert buf[pos..pos + |t|][i] == t[i];
  }

  lemma SpaceSkipped(buf: string, pos: nat, operand: bool, count: nat)
    requires CString(buf) && pos < |buf| && buf[pos] == ' '
    ensures Stream(buf, Scanner(pos, operand, count)) == Stream(buf, Scanner(pos + 1, operand, count))
  {
  }

  lemma {:induction false} DigitsScanned(buf: string, pos: nat, t: string)
    requires TextAt(buf, pos, t) && AllDigits(t) && !IsDigit(At(buf, pos + |t|))
    ensures DigitsEnd(buf, pos) == pos + |t|
    decreases |t|
  {
    if t != [] {
      CharAt(buf, pos, t, 0);
      assert t == [t[0]] + t[1..];
      TextSplit(buf, pos, [t[0]], t[1..]);
      DigitsScanned(buf, pos + 1, t[1..]);
    }
  }

  /** After a number comes a space, or the text ends and no parenthesis is open. */
  ghost predicate Follows(buf: string, pos: nat, count: nat) {
    (pos < |buf| && buf[pos] == ' ') || (pos == |buf| && count == 0)
  }

  lemma NumberScanned(buf: string, pos: nat, v: int, count: nat)
    requires CString(buf) && IsInt32(v) && TextAt(buf, pos, Decimal(v)) && Follows(buf, pos + |Decimal(v)|, count)
    ensures Stream(buf, Scanner(pos, true, count)) == [Val(v)] + Stream(buf, Scanner(pos + |Decimal(v)|, false, count))
  {
    DecimalMeans(v);
    var t := Decimal(v);
    assert t == [t[0]] + t[1..];
    CharAt(buf, pos, t, 0);
    TextSplit(buf, pos, [t[0]], t[1..]);
    DigitsScanned(buf, pos + 1, t[1..]);
    assert Scan(buf, Scanner(pos, true, count)) == (Val(v), Scanner(pos + |t|, false, count));
  }

  lemma OperatorScanned(buf: string, pos: nat, op: char, count: nat)
    requires CString(buf) && (op == '&' || op == '|') && TextAt(buf, pos, [' ', op, ' '])
    ensures Stream(buf, Scanner(pos, false, count)) == [Opr(op)] + Stream(buf, Scanner(pos + 3, true, count))
  {
    CharAt(buf, pos, [' ', op, ' '], 0);
    CharAt(buf, pos, [' ', op, ' '], 1);
    CharAt(buf, pos, [' ', op, ' '], 2);
    SpaceSkipped(buf, pos, false, count);
    SpaceSkipped(buf, pos + 2, true, count);
    assert Scan(buf, Scanner(pos + 1, false, count)) == (Opr(op), Scanner(pos + 2, true, count));
  }

  lemma OpenScanned(buf: string, pos: nat, count: nat)
    requires CString(buf) && TextAt(buf, pos, "( ")
    ensures Stream(buf, Scanner(pos, true, count)) == [Open] + Stream(buf, Scanner(pos + 2, true, count + 1))
  {
    CharAt(buf, pos, "( ", 0);
    CharAt(buf, pos, "( ", 1);
    SpaceSkipped(buf, pos + 1, true, count + 1);
    assert Scan(buf, Scanner(pos, true, count)) == (Open, Scanner(pos + 1, true, count + 1));
  }

  lemma CloseScanned(buf: string, pos: nat, count: nat)
    requires CString(buf) && TextAt(buf, pos, " )")
    ensures Stream(buf, Scanner(pos, false, count + 1)) == [Close] + Stream(buf, Scanner(pos + 2, false, count))
  {
    CharAt(buf, pos, " )", 0);
    CharAt(buf, pos, " )", 1);
    SpaceSkipped(buf, pos, false, count + 1);
    assert Scan(buf, Scanner(pos + 1, false, count + 1)) == (Close, Scanner(pos + 2, false, count));
  }

  lemma NotScanned(buf: string, pos: nat, count: nat)
    requires CString(buf) && TextAt(buf, pos, "!")
    ensures Stream(buf, Scanner(pos, true, count)) == [Opr('!')] + Stream(buf, Scanner(pos + 1, true, count))
  {
    CharAt(buf, pos, "!", 0);
    assert Scan(buf, Scanner(pos, true, count)) == (Opr('!'), Scanner(pos + 1, true, count));
  }

  function Rest(buf: string, pos: nat, count: nat): seq<Token>
    requires CString(buf) && pos <= |buf|
  {
    Stream(buf, Scanner(pos, false, count))
  }

  /** Scanning the printed text of e delivers the tokens of what it reads as. */
  lemma {:induction false} PrintedScanned(buf: string, pos: nat, e: Expr, first: bool, t: string, count: nat)
    requires CString(buf) && Stored(e) && t == Infix(e, first) && TextAt(buf, pos, t) && Follows(buf, pos + |t|, count)
    ensures Stream(buf, Scanner(pos, true, count)) == Emit(Reread(e, first), Rest(buf, pos + |t|, count))
    decreases Size(e), if e.Disj? then 3 else 0, 2
  {
    match e
    case Num(v) => NumberScanned(buf, pos, v, count);
    case Neg(a) => NegationScanned(buf, pos, a, t, count);
    case Conj(l, r) => ConjunctionScanned(buf, pos, l, r, t, count);
    case Disj(l, r) =>
      if first {
        PairScanned(buf, pos, l, '|', r, t, count);
      } else {
        EnclosedScanned(buf, pos, e, Infix(e, true), count);
      }
  }

  lemma {:induction false} ConjunctionScanned(buf: string, pos: nat, l: Expr, r: Expr, t: string, count: nat)
    requires CString(buf) && Stored(l) && Stored(r)
    requires t == Infix(l, false) + [' ', '&', ' '] + Infix(r, false) && TextAt(buf, pos, t)
    requires Follows(buf, pos + |t|, count)
    ensures Stream(buf, Scanner(pos, true, count)) ==
      Emit(Join(Reread(l, false), Reread(r, false)), Rest(buf, pos + |t|, count))
    decreases Size(l) + Size(r) + 1, 0, 1
  {
    PairScanned(buf, pos, l, '&', r, t, count);
    EmitJoin(Reread(l, false), Reread(r, false), Rest(buf, pos + |t|, count));
  }

  lemma {:induction false} NegationScanned(buf: string, pos: nat, a: Expr, t: string, count: nat)
    requires CString(buf) && Stored(a) && t == Infix(Neg(a), false) && TextAt(buf, pos, t)
    requires Follows(buf, pos + |t|, count)
    ensures Stream(buf, Scanner(pos, true, count)) == Emit(Reread(Neg(a), false), Rest(buf, pos + |t|, count))
    decreases Size(a) + 1, 0, 0
  {
    NotScannedAhead(buf, pos, t, count);
    if a.Num? { PrintedScanned(buf, pos + 1, a, false, t[1..], count); }
    else { EnclosedScanned(buf, pos + 1, a, Infix(a, true), count); }
  }

  lemma NotScannedAhead(buf: string, pos: nat, t: string, count: nat)
    requires CString(buf) && TextAt(buf, pos, t) && |t| > 0 && t[0] == '!'
    ensures TextAt(buf, pos + 1, t[1..])
    ensures Stream(buf, Scanner(pos, true, count)) == [Opr('!')] + Stream(buf, Scanner(pos + 1, true, count))
  {
    assert t == "!" + t[1..];
    TextSplit(buf, pos, "!", t[1..]);
    NotScanned(buf, pos, count);
  }

  /** Two operands and the operator between them. */
  lemma {:induction false} PairScanned(buf: string, pos: nat, l: Expr, op: char, r: Expr, t: string, count: nat)
    requires CString(buf) && Stored(l) && Stored(r) && (op == '&' || op == '|')
    requires t == Infix(l, false) + [' ', op, ' '] + Infix(r, false) && TextAt(buf, pos, t)
    requires Follows(buf, pos + |t|, count)
    ensures Stream(buf, Scanner(pos, true, count)) ==
            Emit(Reread(l, false), [Opr(op)] + Emit(Reread(r, false), Rest(buf, pos + |t|, count)))
    decreases Size(l) + Size(r) + 1, 0, 0
  {
    var tl, tr := Infix(l, false), Infix(r, false);
    var p1, p2 := pos + |tl|, pos + |tl| + 3;
    assert p2 + |tr| == pos + |t|;
    PairText(buf, pos, tl, op, tr, count);
    PrintedScanned(buf, pos, l, false, tl, count);
    assert Rest(buf, p1, count) == [Opr(op)] + Emit(Reread(r, false), Rest(buf, p2 + |tr|, count)) by {
      OperatorScanned(buf, p1, op, count);
      PrintedScanned(buf, p2, r, false, tr, count);
    }
  }

  /** The three parts of the text, the first followed by a space. */
  lemma PairText(buf: string, pos: nat, tl: string, op: char, tr: string, count: nat)
    requires CString(buf) && TextAt(buf, pos, tl + [' ', op, ' '] + tr)
    ensures TextAt(buf, pos, tl) && TextAt(buf, pos + |tl|, [' ', op, ' ']) && TextAt(buf, pos + |tl| + 3, tr)
    ensures Follows(buf, pos + |tl|, count)
  {
    TextSplit(buf, pos, tl + [' ', op, ' '], tr);
    TextSplit(buf, pos, tl, [' ', op, ' ']);
    CharAt(buf, pos + |tl|, [' ', op, ' '], 0);
  }

  lemma EnclosedText(buf: string, pos: nat, t: string)
    requires TextAt(buf, pos, "( " + t + " )")
    ensures TextAt(buf, pos, "( ") && TextAt(buf, pos + 2, t) && TextAt(buf, pos + 2 + |t|, " )")
  {
    TextSplit(buf, pos, "( " + t, " )");
    TextSplit(buf, pos, "( ", t);
  }

  /** A text in parentheses: the operand of a negation, or a disjunction that is not outermost. */
  lemma {:induction false} EnclosedScanned(buf: string, pos: nat, e: Expr, t: string, count: nat)
    requires CString(buf) && Stored(e) && t == Infix(e, true) && TextAt(buf, pos, "( " + t + " )")
    ensures Stream(buf, Scanner(pos, true, count)) == Emit(Paren(Reread(e, true)), Rest(buf, pos + 2 + |t| + 2, count))
    decreases Size(e), 2, 1
  {
    EnclosedText(buf, pos, t);
    BetweenScanned(buf, pos, e, t, count);
    BracketsScanned(buf, pos, |t|, Reread(e, true), count);
  }

  /** What stands between the parentheses. */
  lemma {:induction false} BetweenScanned(buf: string, pos: nat, e: Expr, t: string, count: nat)
    requires CString(buf) && Stored(e) && t == Infix(e, true) && TextAt(buf, pos + 2, t)
    requires TextAt(buf, pos + 2 + |t|, " )")
    ensures Stream(buf, Scanner(pos + 2, true, count + 1)) == Emit(Reread(e, true), Rest(buf, pos + 2 + |t|, count + 1))
    decreases Size(e), 2, 0
  {
    CharAt(buf, pos + 2 + |t|, " )", 0);
    InnerScanned(buf, pos + 2, e, t, count + 1);
  }

  lemma BracketsScanned(buf: string, pos: nat, n: nat, x: Expr, count: nat)
    requires CString(buf) && TextAt(buf, pos, "( ") && TextAt(buf, pos + 2 + n, " )")
    requires Stream(buf, Scanner(pos + 2, true, count + 1)) == Emit(x, Rest(buf, pos + 2 + n, count + 1))
    ensures Stream(buf, Scanner(pos, true, count)) == Emit(Paren(x), Rest(buf, pos + 2 + n + 2, count))
  {
    OpenScanned(buf, pos, count);
    CloseScanned(buf, pos + 2 + n, count);
  }

  lemma {:induction false} InnerScanned(buf: string, pos: nat, e: Expr, t: string, count: nat)
    requires CString(buf) && Stored(e) && t == Infix(e, true) && TextAt(buf, pos, t) && Follows(buf, pos + |t|, count)
    ensures Stream(buf, Scanner(pos, true, count)) == Emit(Reread(e, true), Rest(buf, pos + |t|, count))
    decreases Size(e), 1, 0
  {
    if e.Disj? { PairScanned(buf, pos, e.l, '|', e.r, t, count); }
    else { PrintedScanned(buf, pos, e, true, t, count); }
  }

  function Size(e: Expr): nat {
    match e
    case Num(_) => 0
    case Neg(a) => 1 + Size(a)
    case Conj(l, r) => 1 + Size(l) + Size(r)
    case Disj(l, r) => 1 + Size(l) + Size(r)
    case Paren(a) => 1 + Size(a)
  }

  predicate NoNul(s: string) {
    forall i :: 0 <= i < |s| ==> s[i] != '\0'
  }

  lemma {:induction false} InfixNoNul(e: Expr, first: bool)
    requires Stored(e)
    ensures NoNul(Infix(e, first))
  {
    match e
    case Num(v) => DigitsMean(if v < 0 then -v else v);
    case Neg(a) => InfixNoNul(a, !a.Num?);
    case Conj(l, r) => InfixNoNul(l, false); InfixNoNul(r, false);
    case Disj(l, r) => InfixNoNul(l, false); InfixNoNul(r, false);
  }

  lemma {:induction false} JoinSize(l: Expr, r: Expr)
    ensures |Postfix(Join(l, r))| == |Postfix(l)| + |Postfix(r)| + 1
    ensures LinksFit(l) && LinksFit(r) && |Postfix(r)| < 0x8000 ==> LinksFit(Join(l, r))
    decreases r
  {
    if r.Conj? { JoinSize(l, r.l); }
  }

  /** Reading back keeps the number of items, and no right operand grows. */
  lemma {:induction false} RereadSize(e: Expr, first: bool)
    requires Stored(e)
    ensures |Postfix(Reread(e, first))| == |Postfix(e)|
    ensures LinksFit(e) ==> LinksFit(Reread(e, first))
  {
    match e
    case Num(_) =>
    case Neg(a) => if !a.Num? { RereadSize(a, true); }
    case Conj(l, r) => RereadSize(l, false); RereadSize(r, false); JoinSize(Reread(l, false), Reread(r, false));
    case Disj(l, r) => RereadSize(l, false); RereadSize(r, false);
  }

  method BqarrOut(items: seq<Item>, ghost e: Expr) returns (text: string)
    requires items == Linked(e) && Stored(e)
    ensures text == Infix(e, true)
  {
    assert items[0..|items|] == items;
    PlacedIsLaid(items, |items| - 1, e);
    var nrm := new Printer(items, |items| - 1);
    nrm.Print(true, e);
    text := nrm.text;
  }

  /**
   Printing a stored query and reading the text back is accepted, without running out of stack, and
   gives a query with the same truth value under every assignment.
   */
  lemma PrintedReadsBack(e: Expr, holds: int -> bool)
    requires Stored(e) && |Postfix(e)| <= MAX_ITEMS
    ensures CString(Infix(e, true)) && Accepts(Infix(e, true), Reread(e, true))
    ensures LinksFit(e) ==> LinksFit(Reread(e, true))
    ensures Value(Reread(e, true), holds) <==> Value(e, holds)
  {
    var buf := Infix(e, true);
    InfixNoNul(e, true);
    RereadMeans(e, true, holds);
    RereadSize(e, true);
    ShallowFits(Reread(e, true));
    assert buf[0..|buf|] == buf;
    PrintedScanned(buf, 0, e, true, buf, 0);
    EmitIsTokens(Reread(e, true), [End]);
  }
}
