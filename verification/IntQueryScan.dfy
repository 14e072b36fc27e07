/** From the text of a query to its postfix items: the scanner, makepol over it, and what is accepted. */
module IntQueryScan {
  import opened IntQuery

  // ----- the scanner as a function -----

  /** Where the scanner stands, what it waits for, and how many parentheses are open. */
  datatype Scanner = Scanner(pos: nat, operand: bool, count: nat)

  const START := Scanner(0, true, 0)

  function At(buf: string, pos: nat): char {
    if pos < |buf| then buf[pos] else '\0'
  }

  predicate IsDigit(c: char) {
    '0' <= c <= '9'
  }

  function SkipSpaces(buf: string, pos: nat): (p: nat)
    ensures pos <= p
    ensures At(buf, p) != ' '
    decreases |buf| - pos
  {
    if At(buf, pos) == ' ' then SkipSpaces(buf, pos + 1) else pos
  }

  function DigitsEnd(buf: string, pos: nat): (p: nat)
    ensures pos <= p && (pos <= |buf| ==> p <= |buf|)
    ensures !IsDigit(At(buf, p))
    decreases |buf| - pos
  {
    if IsDigit(At(buf, pos)) then DigitsEnd(buf, pos + 1) else pos
  }

  function DigitsValue(digits: string, base: nat, acc: nat): nat {
    if digits != [] && IsDigit(digits[0]) && (digits[0] - '0') as int < base
    then DigitsValue(digits[1..], base, acc * base + (digits[0] - '0') as int) else acc
  }

  /** strtol with base 0 on an optional minus sign and digits: a leading zero means octal. */
  function Strtol(s: string): int {
    var negative := s != [] && s[0] == '-';
    var digits := if negative then s[1..] else s;
    var v: int := DigitsValue(digits, if digits != [] && digits[0] == '0' then 8 else 10, 0);
    if negative then -v else v
  }

  predicate IsInt32(v: int) {
    -0x8000_0000 <= v < 0x8000_0000
  }

  const NUMBUF: nat := 16

  /** An operand that starts at p, where there is no space. */
  function ScanOperand(buf: string, p: nat, count: nat): (Token, Scanner) {
    var c := At(buf, p);
    if IsDigit(c) || c == '-' then ScanNumber(buf, p, count)
    else if c == '!' then (Opr('!'), Scanner(p + 1, true, count))
    else if c == '(' then (Open, Scanner(p + 1, true, count + 1))
    else (Err, START)
  }

  function ScanNumber(buf: string, p: nat, count: nat): (Token, Scanner)
    requires IsDigit(At(buf, p)) || At(buf, p) == '-'
  {
    var q := DigitsEnd(buf, p + 1);
    if q - p >= NUMBUF || !IsInt32(Strtol(buf[p..q])) || (count > 0 && At(buf, q) == '\0') then (Err, START)
    else (Val(Strtol(buf[p..q])), Scanner(q, false, count))
  }

  function ScanOperator(buf: string, p: nat, count: nat): (Token, Scanner) {
    var c := At(buf, p);
    if c == '&' || c == '|' then (Opr(c), Scanner(p + 1, true, count))
    else if c == ')' then (if count == 0 then (Err, START) else (Close, Scanner(p + 1, false, count - 1)))
    else if c == '\0' then (if count > 0 then Err else End, Scanner(p, false, count))
    else (Err, START)
  }

  function Scan(buf: string, sc: Scanner): (Token, Scanner) {
    var p := SkipSpaces(buf, sc.pos);
    if sc.operand then ScanOperand(buf, p, sc.count) else ScanOperator(buf, p, sc.count)
  }

  /** A C string: no NUL inside. */
  predicate CString(buf: string) {
    forall i :: 0 <= i < |buf| ==> buf[i] != '\0'
  }

  lemma ScanAdvances(buf: string, sc: Scanner)
    requires CString(buf) && sc.pos <= |buf|
    ensures var (t, sc') := Scan(buf, sc); t != Err ==> sc.pos <= sc'.pos <= |buf| && (t != End ==> sc.pos < sc'.pos)
  {
    SkipInside(buf, sc.pos);
  }

  lemma {:induction false} SkipInside(buf: string, pos: nat)
    requires pos <= |buf|
    ensures SkipSpaces(buf, pos) <= |buf|
    decreases |buf| - pos
  {
    if At(buf, pos) == ' ' { SkipInside(buf, pos + 1); }
  }

  /** The tokens up to and including the end or the first error. */
  function Stream(buf: string, sc: Scanner): (ts: seq<Token>)
    requires CString(buf) && sc.pos <= |buf|
    ensures |ts| > 0
    decreases |buf| - sc.pos
  {
    ScanAdvances(buf, sc);
    var (t, sc') := Scan(buf, sc);
    if t == Err || t == End then [t] else [t] + Stream(buf, sc')
  }

  lemma {:induction false} StreamLegal(buf: string, sc: Scanner)
    requires CString(buf) && sc.pos <= |buf|
    ensures Err !in Stream(buf, sc) ==> Legal(Stream(buf, sc), sc.operand, sc.count)
    ensures Err in Stream(buf, sc) ==> Doomed(Stream(buf, sc), sc.operand, sc.count)
    decreases |buf| - sc.pos
  {
    ScanAdvances(buf, sc);
    var (t, sc') := Scan(buf, sc);
    if t != Err && t != End {
      StreamLegal(buf, sc');
      assert Stream(buf, sc)[1..] == Stream(buf, sc');
    }
  }

  /** Like a legal stream, but it ends in an error. */
  predicate Doomed(ts: seq<Token>, operand: bool, depth: nat)
    decreases |ts|
  {
    ts != [] && (ts == [Err] ||
    if operand then
      match ts[0]
      case Val(_) => Doomed(ts[1..], false, depth)
      case Opr(op) => op == '!' && Doomed(ts[1..], true, depth)
      case Open => Doomed(ts[1..], true, depth + 1)
      case _ => false
    else
      match ts[0]
      case Opr(op) => (op == '&' || op == '|') && Doomed(ts[1..], true, depth)
      case Close => depth > 0 && Doomed(ts[1..], false, depth - 1)
      case _ => false)
  }

  lemma {:induction false} DoomedFails(ts: seq<Token>, operand: bool, depth: nat, stack: seq<char>, out: seq<Item>)
    requires Doomed(ts, operand, depth)
    ensures var o := MakePol(ts, stack, out); o.Done? ==>
      depth > 0 && |o.rest| < |ts| && Doomed(o.rest, false, depth - 1)
    decreases |ts|
  {
    match ts[0]
    case Val(v) => DoomedFails(ts[1..], false, depth, Loosened(stack), out + [ValItem(v)] + Popped(stack));
    case Opr(op) =>
      if |stack| > 0 && op == '|' { DoomedFails(ts[1..], true, depth, stack, out + [OprItem(op)]); }
      else if |stack| < STACKDEPTH { DoomedFails(ts[1..], true, depth, stack + [op], out); }
    case Open =>
      DoomedFails(ts[1..], true, depth + 1, [], out);
      var o := MakePol(ts[1..], [], out);
      if o.Done? { DoomedFails(o.rest, false, depth, Loosened(stack), o.out + Popped(stack)); }
    case _ =>
  }

  /** What the text of a query compiles to. */
  function Compile(buf: string): Outcome
    requires CString(buf)
  {
    MakePol(Stream(buf, START), [], [])
  }

  ghost predicate Reads(buf: string, e: Expr)
    requires CString(buf)
  {
    IsExpr(e) && Stream(buf, START) == Tokens(e) + [End]
  }

  /**
   A text is accepted exactly when it reads as an expression that fits the stack, and then its items
   are the postfix form of that expression.
   */
  lemma CompileExactly(buf: string)
    requires CString(buf)
    ensures Compile(buf).Done? <==> exists e :: Reads(buf, e) && Fits(e)
    ensures Compile(buf) == TooComplex || Compile(buf) == SyntaxError || Compile(buf).rest == [End]
    ensures forall e :: Reads(buf, e) ==> Compile(buf) == if Fits(e) then Done(Postfix(e), [End]) else TooComplex
  {
    var ts := Stream(buf, START);
    forall e | Reads(buf, e) ensures Compile(buf) == if Fits(e) then Done(Postfix(e), [End]) else TooComplex {
      ExprPol(e, [], [End]);
      assert [] + Postfix(e) == Postfix(e);
    }
    StreamLegal(buf, START);
    if Err in ts {
      DoomedFails(ts, true, 0, [], []);
    } else {
      var e, rest := ParseExpr(ts, 0);
      assert rest == [End];
      assert Reads(buf, e);
    }
  }

  // ----- the scanner and makepol as they run -----

  datatype State = WaitOperand | WaitEndOperand | WaitOperator

  datatype Status = Ok | BadSyntax | Complex

  function StatusOf(o: Outcome): Status {
    match o
    case Done(_, _) => Ok
    case SyntaxError => BadSyntax
    case TooComplex => Complex
  }

  /** At the end of the text the scanner keeps delivering the end. */
  lemma EndAgain(buf: string, sc: Scanner)
    requires CString(buf) && sc.pos <= |buf| && Scan(buf, sc).0 == End
    ensures Scan(buf, sc).1.pos <= |buf| && Stream(buf, Scan(buf, sc).1) == [End] == Stream(buf, sc)
  {
    SkipInside(buf, sc.pos);
  }

  class WorkState {
    const buf: string
    var pos: nat
    var state: State
    var count: int
    var str: seq<Item>

    constructor (buf: string)
      ensures this.buf == buf && pos == 0 && state == WaitOperand && count == 0 && str == []
    {
      this.buf := buf;
      pos, state, count, str := 0, WaitOperand, 0, [];
    }

    ghost predicate Valid()
      reads this
    {
      CString(buf) && pos <= |buf| && count >= 0 && state != WaitEndOperand
    }

    ghost function Scanning(): Scanner
      requires Valid()
      reads this
    {
      Scanner(pos, state == WaitOperand, count)
    }

    method GetToken() returns (t: Token)
      requires Valid()
      modifies this`pos, this`state, this`count
      ensures t == Scan(buf, old(Scanning())).0
      ensures t != Err ==> Valid() && Scanning() == Scan(buf, old(Scanning())).1
    {
      ghost var p := SkipSpaces(buf, pos);
      ghost var operand := state == WaitOperand;
      var nnn: string := [];
      while true
        invariant pos <= |buf| && count == old(count)
        invariant operand <==> state != WaitOperator
        invariant state != WaitEndOperand ==> nnn == [] && SkipSpaces(buf, pos) == p
        invariant state == WaitEndOperand ==> InNumber(buf, p, pos, nnn)
        decreases |buf| - pos
      {
        if |nnn| >= NUMBUF { return Err; }
        var c := At(buf, pos);
        if state == WaitEndOperand {
          if !IsDigit(c) {
            var lval := Strtol(nnn);
            if !IsInt32(lval) { return Err; }
            state := WaitOperator;
            return if count > 0 && c == '\0' then Err else Val(lval);
          }
          nnn := nnn + [c];
        } else if c != ' ' {
          assert p == pos;
          if state == WaitOperand && (IsDigit(c) || c == '-') {
            state := WaitEndOperand;
            nnn := nnn + [c];
          } else {
            t := Single(c);
            return;
          }
        }
        pos := pos + 1;
      }
    }

    /** A token of one character. */
    method Single(c: char) returns (t: Token)
      requires Valid() && c == At(buf, pos) && c != ' '
      requires state == WaitOperand ==> !IsDigit(c) && c != '-'
      modifies this`pos, this`state, this`count
      ensures var (t', sc) := if old(state) == WaitOperand then ScanOperand(buf, old(pos), old(count))
        else ScanOperator(buf, old(pos), old(count));
        t == t' && (t != Err ==> Valid() && Scanning() == sc)
    {
      match state
      case WaitOperand =>
        if c == '!' {
          pos := pos + 1;
          return Opr('!');
        } else if c == '(' {
          count := count + 1;
          pos := pos + 1;
          return Open;
        }
        return Err;
      case WaitOperator =>
        if c == '&' || c == '|' {
          state := WaitOperand;
          pos := pos + 1;
          return Opr(c);
        } else if c == ')' {
          pos := pos + 1;
          count := count - 1;
          return if count < 0 then Err else Close;
        } else if c == '\0' {
          return if count > 0 then Err else End;
        }
        return Err;
    }

    /** The operators on top that bind tighter than | move to the output. */
    method PopTight(stack: seq<char>) returns (stack': seq<char>)
      modifies this`str
      ensures stack' == Loosened(stack) && str == old(str) + Popped(stack)
    {
      stack' := stack;
      while |stack'| > 0 && Tight(stack'[|stack'| - 1])
        invariant Loosened(stack') == Loosened(stack)
        invariant str + Popped(stack') == old(str) + Popped(stack)
      {
        str := str + [OprItem(stack'[|stack'| - 1])];
        stack' := stack'[..|stack'| - 1];
      }
    }

    /** makepol: one call for the whole text and one for each open parenthesis. */
    method MakePolish() returns (status: Status)
      requires Valid()
      modifies this
      ensures var o := MakePol(Stream(buf, old(Scanning())), [], old(str));
        && status == StatusOf(o)
        && (o.Done? ==> Valid() && pos >= old(pos) && str == o.out && Stream(buf, Scanning()) == o.rest)
      decreases |buf| - pos
    {
      ghost var o := MakePol(Stream(buf, Scanning()), [], str);
      var stack: seq<char> := [];
      while true
        invariant Valid() && pos >= old(pos)
        invariant MakePol(Stream(buf, Scanning()), stack, str) == o
        decreases |buf| - pos
      {
        ghost var sc := Scanning();
        ScanAdvances(buf, sc);
        var t := GetToken();
        assert t != Err && t != End ==> Stream(buf, sc)[1..] == Stream(buf, Scanning());
        match t {
          case Val(v) =>
            str := str + [ValItem(v)];
            stack := PopTight(stack);
          case Opr(op) =>
            if |stack| > 0 && op == '|' {
              str := str + [OprItem(op)];
            } else {
              if |stack| >= STACKDEPTH { return Complex; }
              stack := stack + [op];
            }
          case Open =>
            status := MakePolish();
            if status != Ok { return; }
            stack := PopTight(stack);
          case Close =>
            PopAll(stack);
            return Ok;
          case End =>
            PopAll(stack);
            EndAgain(buf, sc);
            return Ok;
          case Err => return BadSyntax;
        }
      }
    }

    method PopAll(stack: seq<char>)
      modifies this`str
      ensures str == old(str) + Flushed(stack)
    {
      var stack' := stack;
      while |stack'| > 0
        invariant str + Flushed(stack') == old(str) + Flushed(stack)
      {
        str := str + [OprItem(stack'[|stack'| - 1])];
        stack' := stack'[..|stack'| - 1];
      }
    }
  }

  /** Inside a number that starts at p, with the characters so far in nnn. */
  ghost predicate InNumber(buf: string, p: nat, pos: nat, nnn: string) {
    && p < pos <= |buf| && nnn == buf[p..pos]
    && (IsDigit(At(buf, p)) || At(buf, p) == '-')
    && DigitsEnd(buf, p + 1) == DigitsEnd(buf, pos)
  }
}
