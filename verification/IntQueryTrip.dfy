/** A query from its text to its items and back to a text, and a text whose items are linked wrongly. */
module IntQueryTrip {
  import opened IntQuery
  import opened IntQueryScan
  import opened IntQueryExec
  import opened IntQueryPrint

  // ----- what is stored of an accepted text -----

  /** The expression without its parentheses, which the items do not record. */
  function Plain(e: Expr): Expr {
    match e
    case Num(_) => e
    case Neg(a) => Neg(Plain(a))
    case Conj(l, r) => Conj(Plain(l), Plain(r))
    case Disj(l, r) => Disj(Plain(l), Plain(r))
    case Paren(a) => Plain(a)
  }

  lemma {:induction false} PlainItems(e: Expr)
    ensures Postfix(Plain(e)) == Postfix(e)
  {
    match e
    case Num(_) =>
    case Neg(a) => PlainItems(a);
    case Conj(l, r) => PlainItems(l); PlainItems(r);
    case Disj(l, r) => PlainItems(l); PlainItems(r);
    case Paren(a) => PlainItems(a);
  }

  lemma {:induction false} PlainMeans(e: Expr, holds: int -> bool)
    ensures LinksFit(Plain(e)) == LinksFit(e) && Value(Plain(e), holds) == Value(e, holds)
  {
    match e
    case Num(_) =>
    case Neg(a) => PlainMeans(a, holds);
    case Conj(l, r) => PlainMeans(l, holds); PlainMeans(r, holds); PlainItems(r);
    case Disj(l, r) => PlainMeans(l, holds); PlainMeans(r, holds); PlainItems(r);
    case Paren(a) => PlainMeans(a, holds);
  }

  predicate Int32Tokens(ts: seq<Token>) {
    forall i :: 0 <= i < |ts| && ts[i].Val? ==> IsInt32(ts[i].v)
  }

  lemma {:induction false} StreamInt32(buf: string, sc: Scanner)
    requires CString(buf) && sc.pos <= |buf|
    ensures Int32Tokens(Stream(buf, sc))
    decreases |buf| - sc.pos
  {
    ScanAdvances(buf, sc);
    var (t, sc') := Scan(buf, sc);
    if t != Err && t != End { StreamInt32(buf, sc'); }
  }

  lemma JoinedInt32(a: seq<Token>, b: seq<Token>)
    requires Int32Tokens(a + b)
    ensures Int32Tokens(a) && Int32Tokens(b)
  {
    assert forall i :: 0 <= i < |a| ==> (a + b)[i] == a[i];
    assert forall i :: 0 <= i < |b| ==> (a + b)[|a| + i] == b[i];
  }

  lemma {:induction false} Int32Stored(e: Expr)
    requires Int32Tokens(Tokens(e))
    ensures Stored(Plain(e))
  {
    match e
    case Num(v) => assert Tokens(e)[0] == Val(v);
    case Neg(a) => JoinedInt32([Opr('!')], Tokens(a)); Int32Stored(a);
    case Conj(l, r) =>
      JoinedInt32(Tokens(l) + [Opr('&')], Tokens(r));
      JoinedInt32(Tokens(l), [Opr('&')]);
      Int32Stored(l);
      Int32Stored(r);
    case Disj(l, r) =>
      JoinedInt32(Tokens(l) + [Opr('|')], Tokens(r));
      JoinedInt32(Tokens(l), [Opr('|')]);
      Int32Stored(l);
      Int32Stored(r);
    case Paren(a) =>
      JoinedInt32([Open] + Tokens(a), [Close]);
      JoinedInt32([Open], Tokens(a));
      Int32Stored(a);
  }

  /**
   Text to items to text: what an accepted text is stored as prints as a text that is accepted again,
   and the second text means what the first meant.
   */
  lemma TextRoundTrip(buf: string, e: Expr, holds: int -> bool)
    requires CString(buf) && Accepts(buf, e)
    ensures Stored(Plain(e)) && Linked(Plain(e)) == Linked(e)
    ensures var text := Infix(Plain(e), true); var again := Reread(Plain(e), true);
      && CString(text) && Accepts(text, again)
      && (Value(again, holds) <==> Value(e, holds)) && (LinksFit(e) ==> LinksFit(again))
  {
    StreamInt32(buf, START);
    JoinedInt32(Tokens(e), [End]);
    Int32Stored(e);
    PlainItems(e);
    SamePostfix(e, Plain(e));
    PlainMeans(e, holds);
    PrintedReadsBack(Plain(e), holds);
  }

  // ----- 0 & ( 1 | 1 | ... | 1 ), with n + 1 ones -----

  function Ones(n: nat): Expr {
    if n == 0 then Num(1) else Disj(Ones(n - 1), Num(1))
  }

  function Long(n: nat): Expr {
    Conj(Num(0), Ones(n))
  }

  lemma {:induction false} OnesSize(n: nat)
    ensures Stored(Ones(n)) && |Postfix(Ones(n))| == 2 * n + 1
  {
    if n > 0 { OnesSize(n - 1); }
  }

  lemma {:induction false} OnesReread(n: nat)
    ensures !Reread(Ones(n), false).Conj? && |Postfix(Reread(Ones(n), false))| == 2 * n + 1
  {
    OnesSize(n);
    RereadSize(Ones(n), false);
  }

  /** The text is accepted, and the link of its & points to the right of it. */
  lemma LongOperandIsMislinked(n: nat)
    requires 16384 <= n < 32767
    ensures var text, e := Infix(Long(n), true), Reread(Long(n), true);
      && CString(text) && Accepts(text, e) && !LinksFit(e)
      && Linked(e)[|Linked(e)| - 1].left == 0xfffe - 2 * n > 0 && !Navigable(Linked(e), |Linked(e)| - 1)
  {
    OnesSize(n);
    OnesReread(n);
    PrintedReadsBack(Long(n), _ => true);
    var right := Reread(Ones(n), false);
    assert Reread(Long(n), true) == Conj(Num(0), right);
    LinkToTheRight(Num(0), right);
  }

  lemma LinkToTheRight(l: Expr, r: Expr)
    requires 0x8000 <= |Postfix(r)| < 0xffff
    ensures var e := Conj(l, r);
      && !LinksFit(e) && Linked(e)[|Linked(e)| - 1].left == 0xffff - |Postfix(r)| &&
        !Navigable(Linked(e), |Linked(e)| - 1)
  {
    var items := Linked(Conj(l, r));
    assert items[|items| - 1] == Item(false, '&' as int, ToInt16(-(|Postfix(r)| + 1)));
  }
}
