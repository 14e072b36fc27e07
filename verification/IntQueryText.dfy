/**
 The texts of boolean queries as a grammar: lexemes with spaces before them, and numerals as strtol
 reads them; and the proof that the scanner delivers exactly the tokens that a text spells.
 */
module IntQueryText {
  import opened IntQuery
  import opened IntQueryScan

  // ----- numerals -----

  function Digit(c: char): nat
    requires IsDigit(c)
  {
    (c - '0') as int
  }

  function Pow(b: nat, k: nat): nat {
    if k == 0 then 1 else b * Pow(b, k - 1)
  }

  /** Every digit times the power of the base that its place has. */
  function Weighted(s: string, base: nat): nat
    requires forall i :: 0 <= i < |s| ==> IsDigit(s[i])
  {
    if s == [] then 0 else Digit(s[0]) * Pow(base, |s| - 1) + Weighted(s[1..], base)
  }

  /** How many characters in front are digits below the base. */
  function Leading(s: string, base: nat): (k: nat)
    ensures k <= |s| && forall i :: 0 <= i < k ==> IsDigit(s[i]) && Digit(s[i]) < base
    ensures k < |s| && IsDigit(s[k]) ==> Digit(s[k]) >= base
  {
    if s != [] && IsDigit(s[0]) && Digit(s[0]) < base then 1 + Leading(s[1..], base) else 0
  }

  /** A minus sign or a digit, and digits. */
  predicate Numeral(s: string) {
    s != [] && (IsDigit(s[0]) || s[0] == '-') && forall i :: 1 <= i < |s| ==> IsDigit(s[i])
  }

  /** After a leading zero only octal digits count. */
  function NumeralValue(s: string): int
    requires Numeral(s)
  {
    var digits := if s[0] == '-' then s[1..] else s;
    var base := if digits != [] && digits[0] == '0' then 8 else 10;
    var v: int := Weighted(digits[..Leading(digits, base)], base);
    if s[0] == '-' then -v else v
  }

  lemma {:induction false} DigitsWeighted(s: string, base: nat, acc: nat)
    ensures DigitsValue(s, base, acc) ==
      acc * Pow(base, Leading(s, base)) + Weighted(s[..Leading(s, base)], base)
    decreases |s|
  {
    var k := Leading(s, base);
    if s != [] && IsDigit(s[0]) && Digit(s[0]) < base {
      var d, p := Digit(s[0]), Pow(base, k - 1);
      DigitsWeighted(s[1..], base, acc * base + d);
      assert s[1..][..k - 1] == s[..k][1..];
      Distribute(acc, base, d, p);
    } else {
      assert s[..k] == [];
    }
  }

  lemma Distribute(acc: nat, base: nat, d: nat, p: nat)
    ensures (acc * base + d) * p == acc * (base * p) + d * p
  {
    assert acc * base * p == acc * (base * p);
  }

  lemma StrtolReads(s: string)
    requires Numeral(s)
    ensures Strtol(s) == NumeralValue(s)
  {
    var digits := if s[0] == '-' then s[1..] else s;
    DigitsWeighted(digits, if digits != [] && digits[0] == '0' then 8 else 10, 0);
  }

  // ----- texts -----

  predicate Spaces(s: string) {
    forall i :: 0 <= i < |s| ==> s[i] == ' '
  }

  predicate Lexeme(t: Token, s: string) {
    match t
    case Val(v) => Numeral(s) && |s| < NUMBUF && NumeralValue(s) == v && IsInt32(v)
    case Opr(op) => s == [op]
    case Open => s == ['(']
    case Close => s == [')']
    case _ => false
  }

  /** The text from pos on begins with spaces and a lexeme at p..q. */
  ghost predicate Lexed(text: string, pos: nat, t: Token, p: nat, q: nat) {
    pos <= p <= q <= |text| && Spaces(text[pos..p]) && Lexeme(t, text[p..q])
  }

  /** From pos on: spaces and lexemes, one for each token, and spaces at the end. */
  ghost predicate Spells(text: string, pos: nat, ts: seq<Token>)
    requires pos <= |text|
    decreases |ts|
  {
    if ts == [] then Spaces(text[pos..])
    else exists p: nat, q: nat :: Lexed(text, pos, ts[0], p, q) && Spells(text, q, ts[1..])
  }

  // ----- scanning -----

  lemma {:induction false} SpacesSkipped(buf: string, pos: nat, p: nat)
    requires pos <= p <= |buf| && Spaces(buf[pos..p]) && (p < |buf| ==> buf[p] != ' ')
    ensures SkipSpaces(buf, pos) == p
    decreases p - pos
  {
    if pos < p {
      assert buf[pos] == buf[pos..p][0];
      assert buf[pos + 1..p] == buf[pos..p][1..];
      SpacesSkipped(buf, pos + 1, p);
    }
  }

  lemma {:induction false} SkipsSpaces(buf: string, pos: nat)
    requires pos <= |buf|
    ensures SkipSpaces(buf, pos) <= |buf| && Spaces(buf[pos..SkipSpaces(buf, pos)])
    decreases |buf| - pos
  {
    if At(buf, pos) == ' ' {
      SkipsSpaces(buf, pos + 1);
      var p := SkipSpaces(buf, pos);
      assert buf[pos..p] == [' '] + buf[pos + 1..p];
    }
  }

  lemma {:induction false} DigitsRun(buf: string, pos: nat, q: nat)
    requires pos <= q <= |buf| && (forall i :: pos <= i < q ==> IsDigit(buf[i])) && !IsDigit(At(buf, q))
    ensures DigitsEnd(buf, pos) == q
    decreases q - pos
  {
    if pos < q { DigitsRun(buf, pos + 1, q); }
  }

  lemma {:induction false} DigitsRunOn(buf: string, pos: nat)
    requires pos <= |buf|
    ensures forall i :: pos <= i < DigitsEnd(buf, pos) ==> i < |buf| && IsDigit(buf[i])
    decreases |buf| - pos
  {
    if IsDigit(At(buf, pos)) { DigitsRunOn(buf, pos + 1); }
  }

  lemma NumberScanned(buf: string, p: nat, q: nat, v: int, count: nat)
    requires p < q <= |buf| && Lexeme(Val(v), buf[p..q]) && !IsDigit(At(buf, q)) && (count > 0 ==> At(buf, q) != '\0')
    ensures IsDigit(At(buf, p)) || At(buf, p) == '-'
    ensures ScanNumber(buf, p, count) == (Val(v), Scanner(q, false, count))
  {
    var w := buf[p..q];
    assert w[0] == buf[p];
    forall i | p + 1 <= i < q ensures IsDigit(buf[i]) { assert buf[i] == w[i - p]; }
    DigitsRun(buf, p + 1, q);
    StrtolReads(w);
  }

  /** One token of a text. */
  lemma FirstScanned(buf: string, sc: Scanner, t: Token, p: nat, q: nat, rest: seq<Token>) returns (sc': Scanner)
    requires CString(buf) && sc.pos <= p <= q <= |buf| && Spaces(buf[sc.pos..p]) && Lexeme(t, buf[p..q])
    requires Legal([t] + rest, sc.operand, sc.count)
    requires t.Val? ==> !IsDigit(At(buf, q)) && (sc.count > 0 ==> q < |buf|)
    ensures Scan(buf, sc) == (t, sc') && sc'.pos == q && Legal(rest, sc'.operand, sc'.count)
    ensures t != Err && t != End
  {
    sc' := Scan(buf, sc).1;
    assert ([t] + rest)[1..] == rest;
    assert buf[p..q] != [] && buf[p..q][0] == buf[p];
    SpacesSkipped(buf, sc.pos, p);
    if t.Val? {
      NumberScanned(buf, p, q, t.v, sc.count);
    } else {
      assert q == p + 1;
    }
  }

  /** After a number: nothing, a space, an operator or a parenthesis, and inside parentheses not nothing. */
  lemma AfterNumber(buf: string, q: nat, ts: seq<Token>, count: nat)
    requires q <= |buf| && Spells(buf, q, ts) && Legal(ts + [End], false, count)
    ensures !IsDigit(At(buf, q)) && (count > 0 ==> q < |buf|)
  {
    if ts == [] {
      if q < |buf| { assert buf[q..][0] == buf[q]; }
    } else {
      var p: nat, r: nat :| Lexed(buf, q, ts[0], p, r) && Spells(buf, r, ts[1..]);
      assert (ts + [End])[0] == ts[0];
      assert buf[p..r][0] == buf[p];
      if q < p { assert buf[q..p][0] == buf[q]; }
    }
  }

  lemma StreamCons(buf: string, sc: Scanner, t: Token, sc': Scanner)
    requires CString(buf) && sc.pos <= |buf| && Scan(buf, sc) == (t, sc') && t != Err && t != End
    ensures sc.pos < sc'.pos <= |buf| && Stream(buf, sc) == [t] + Stream(buf, sc')
  {
    ScanAdvances(buf, sc);
  }

  lemma StreamEnds(buf: string, sc: Scanner)
    requires CString(buf) && sc.pos <= |buf| && Spaces(buf[sc.pos..]) && !sc.operand && sc.count == 0
    ensures Stream(buf, sc) == [End]
  {
    assert buf[sc.pos..] == buf[sc.pos..|buf|];
    SpacesSkipped(buf, sc.pos, |buf|);
  }

  /** A text is scanned as the tokens it spells. */
  lemma {:induction false} SpelledScanned(buf: string, sc: Scanner, ts: seq<Token>)
    requires CString(buf) && sc.pos <= |buf| && Spells(buf, sc.pos, ts) && Legal(ts + [End], sc.operand, sc.count)
    ensures Stream(buf, sc) == ts + [End]
    decreases |ts|
  {
    if ts == [] {
      StreamEnds(buf, sc);
    } else {
      var p: nat, q: nat :| Lexed(buf, sc.pos, ts[0], p, q) && Spells(buf, q, ts[1..]);
      var rest := ts[1..] + [End];
      assert ts + [End] == [ts[0]] + rest && (ts + [End])[1..] == rest;
      if ts[0].Val? { AfterNumber(buf, q, ts[1..], sc.count); }
      var sc' := FirstScanned(buf, sc, ts[0], p, q, rest);
      StreamCons(buf, sc, ts[0], sc');
      SpelledScanned(buf, sc', ts[1..]);
    }
  }

  lemma NumeralScanned(buf: string, p: nat, count: nat)
    requires p < |buf| && (IsDigit(buf[p]) || buf[p] == '-') && ScanNumber(buf, p, count).0 != Err
    ensures var (t, sc) := ScanNumber(buf, p, count); p <= sc.pos <= |buf| && Lexeme(t, buf[p..sc.pos])
  {
    DigitsRunOn(buf, p + 1);
    var w := buf[p..DigitsEnd(buf, p + 1)];
    forall i | 1 <= i < |w| ensures IsDigit(w[i]) { assert w[i] == buf[p + i]; }
    StrtolReads(w);
  }

  lemma LexemeScanned(buf: string, p: nat, sc: Scanner)
    requires CString(buf) && p == SkipSpaces(buf, sc.pos) && sc.pos <= p <= |buf|
    requires Scan(buf, sc).0 != Err && Scan(buf, sc).0 != End
    ensures var (t, sc') := Scan(buf, sc); p <= sc'.pos <= |buf| && Lexeme(t, buf[p..sc'.pos])
  {
    if sc.operand && (IsDigit(At(buf, p)) || At(buf, p) == '-') {
      NumeralScanned(buf, p, sc.count);
    } else {
      SingleScanned(buf, p, sc);
    }
  }

  lemma SingleScanned(buf: string, p: nat, sc: Scanner)
    requires p == SkipSpaces(buf, sc.pos) && p <= |buf| && !(sc.operand && (IsDigit(At(buf, p)) || At(buf, p) == '-'))
    requires Scan(buf, sc).0 != Err && Scan(buf, sc).0 != End
    ensures var (t, sc') := Scan(buf, sc); sc'.pos == p + 1 <= |buf| && Lexeme(t, buf[p..p + 1])
  {
    assert p < |buf| ==> buf[p..p + 1] == [buf[p]];
  }

  /** What the scanner delivers: the end after spaces, or the token of a lexeme after spaces. */
  lemma ScannedFirst(buf: string, sc: Scanner, ts: seq<Token>) returns (p: nat, sc': Scanner)
    requires CString(buf) && sc.pos <= |buf| && Stream(buf, sc) == ts + [End] && ts != []
    ensures sc'.pos <= |buf| && Lexed(buf, sc.pos, ts[0], p, sc'.pos) && Stream(buf, sc') == ts[1..] + [End]
  {
    var t := Scan(buf, sc).0;
    sc' := Scan(buf, sc).1;
    assert (ts + [End])[0] == ts[0] && (ts + [End])[1..] == ts[1..] + [End];
    assert t == ts[0] && t != End && t != Err;
    StreamCons(buf, sc, t, sc');
    assert ([t] + Stream(buf, sc'))[1..] == Stream(buf, sc');
    p := SkipSpaces(buf, sc.pos);
    SkipsSpaces(buf, sc.pos);
    LexemeScanned(buf, p, sc);
  }

  lemma ScannedEnd(buf: string, sc: Scanner)
    requires CString(buf) && sc.pos <= |buf| && Stream(buf, sc) == [End]
    ensures Spaces(buf[sc.pos..])
  {
    SkipsSpaces(buf, sc.pos);
    var p := SkipSpaces(buf, sc.pos);
    assert p == |buf| && buf[sc.pos..] == buf[sc.pos..p];
  }

  /** The tokens that are scanned are spelled. */
  lemma {:induction false} ScannedSpelled(buf: string, sc: Scanner, ts: seq<Token>)
    requires CString(buf) && sc.pos <= |buf| && Stream(buf, sc) == ts + [End]
    ensures Spells(buf, sc.pos, ts)
    decreases |ts|
  {
    if ts == [] {
      ScannedEnd(buf, sc);
    } else {
      var p, sc' := ScannedFirst(buf, sc, ts);
      ScannedSpelled(buf, sc', ts[1..]);
    }
  }

  // ----- expressions -----

  lemma {:induction false} TokensLegal(e: Expr, rest: seq<Token>, depth: nat)
    requires Legal(rest, false, depth)
    ensures Legal(Tokens(e) + rest, true, depth)
    decreases e
  {
    match e
    case Num(v) => assert ([Val(v)] + rest)[1..] == rest;
    case Neg(a) =>
      TokensLegal(a, rest, depth);
      OneAhead(Opr('!'), Tokens(a) + rest, true, depth, true, depth);
      assert [Opr('!')] + Tokens(a) + rest == [Opr('!')] + (Tokens(a) + rest);
    case Paren(a) =>
      OneAhead(Close, rest, false, depth + 1, false, depth);
      TokensLegal(a, [Close] + rest, depth + 1);
      OneAhead(Open, Tokens(a) + ([Close] + rest), true, depth, true, depth + 1);
      assert [Open] + Tokens(a) + [Close] + rest == [Open] + (Tokens(a) + ([Close] + rest));
    case Conj(l, r) =>
      TokensLegal(r, rest, depth);
      OneAhead(Opr('&'), Tokens(r) + rest, false, depth, true, depth);
      TokensLegal(l, [Opr('&')] + (Tokens(r) + rest), depth);
      assert Tokens(l) + [Opr('&')] + Tokens(r) + rest == Tokens(l) + ([Opr('&')] + (Tokens(r) + rest));
    case Disj(l, r) =>
      TokensLegal(r, rest, depth);
      OneAhead(Opr('|'), Tokens(r) + rest, false, depth, true, depth);
      TokensLegal(l, [Opr('|')] + (Tokens(r) + rest), depth);
      assert Tokens(l) + [Opr('|')] + Tokens(r) + rest == Tokens(l) + ([Opr('|')] + (Tokens(r) + rest));
  }

  /** One token more in front. */
  lemma OneAhead(t: Token, rest: seq<Token>, operand: bool, depth: nat, operand': bool, depth': nat)
    requires Legal(rest, operand', depth')
    requires (operand && operand' && ((t == Opr('!') && depth' == depth) || (t == Open && depth' == depth + 1))) ||
      (!operand && operand' && (t == Opr('&') || t == Opr('|')) && depth' == depth) ||
      (!operand && !operand' && t == Close && depth == depth' + 1)
    ensures Legal([t] + rest, operand, depth)
  {
    assert ([t] + rest)[1..] == rest;
  }

  /** A text reads as an expression exactly if it spells its tokens. */
  lemma ReadsExactly(buf: string, e: Expr)
    requires CString(buf)
    ensures Reads(buf, e) <==> IsExpr(e) && Spells(buf, 0, Tokens(e))
  {
    if Reads(buf, e) { ScannedSpelled(buf, START, Tokens(e)); }
    if Spells(buf, 0, Tokens(e)) {
      TokensLegal(e, [End], 0);
      SpelledScanned(buf, START, Tokens(e));
    }
  }
}
