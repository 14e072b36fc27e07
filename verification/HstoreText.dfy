/** The text form of an hstore: the parser as a state machine over characters, and the printer. */
module HstoreText {
  import opened HstoreFormat

  // ----- characters -----

  predicate IsSpace(c: char) {
    c == ' ' || 9 <= c as int <= 13
  }

  function Lower(c: char): char {
    if 'A' <= c <= 'Z' then c - 'A' + 'a' else c
  }

  predicate IsNullWord(w: string) {
    |w| == 4 && Lower(w[0]) == 'n' && Lower(w[1]) == 'u' && Lower(w[2]) == 'l' && Lower(w[3]) == 'l'
  }

  /** The next character of the text left to read; NUL at the end. */
  function Peek(t: string): char {
    if t == [] then '\0' else t[0]
  }

  predicate NoNul(s: string) {
    forall i :: 0 <= i < |s| ==> s[i] != '\0'
  }

  // ----- words -----

  datatype WordState = WaitVal | InVal | InEsc | WaitEscIn | WaitEscEscIn

  /** What one character does: go on, perhaps with one more character in the word, or stop. */
  datatype Move = Go(st: WordState, append: bool) | Finish(back: bool) | Nothing | Unexpected

  function Next(st: WordState, c: char, ignoreEq: bool): Move {
    match st
    case WaitVal =>
      if c == '"' then Go(InEsc, false)
      else if c == '\0' then Nothing
      else if c == '=' && !ignoreEq then Unexpected
      else if c == '\\' then Go(WaitEscIn, false)
      else if !IsSpace(c) then Go(InVal, true)
      else Go(WaitVal, false)
    case InVal =>
      if c == '\\' then Go(WaitEscIn, false)
      else if c == '=' && !ignoreEq then Finish(true)
      else if c == ',' && ignoreEq then Finish(true)
      else if IsSpace(c) then Finish(false)
      else if c == '\0' then Finish(true)
      else Go(InVal, true)
    case InEsc =>
      if c == '\\' then Go(WaitEscEscIn, false)
      else if c == '"' then Finish(false)
      else if c == '\0' then Unexpected
      else Go(InEsc, true)
    case WaitEscIn => if c == '\0' then Unexpected else Go(InVal, true)
    case WaitEscEscIn => if c == '\0' then Unexpected else Go(InEsc, true)
  }

  datatype Got = NoVal | Word(word: string, escaped: bool, rest: string) | Bad

  function GetVal(t: string, st: WordState, ignoreEq: bool, word: string, escaped: bool): (g: Got)
    requires NoNul(t)
    ensures g.Word? ==> |g.rest| <= |t| && NoNul(g.rest) && (st == WaitVal ==> |g.rest| < |t|)
    decreases |t|
  {
    var c := Peek(t);
    match Next(st, c, ignoreEq)
    case Nothing => NoVal
    case Unexpected => Bad
    case Finish(back) => Word(word, escaped, if back then t else t[1..])
    case Go(st', append) =>
      GetVal(t[1..], st', ignoreEq, if append then word + [c] else word, escaped || (st == WaitVal && c == '"'))
  }

  // ----- pairs -----

  datatype Parsed = Pairs(ps: seq<Pair>) | Failed

  const MAX_LEN: nat := 0x3fff_ffff

  function ValueOf(w: string, escaped: bool): Value {
    if !escaped && IsNullWord(w) then Null else Str(w)
  }

  function ParseKey(t: string, acc: seq<Pair>): Parsed
    requires NoNul(t)
    decreases |t|, 4
  {
    match GetVal(t, WaitVal, false, "", false)
    case NoVal => Pairs(acc)
    case Bad => Failed
    case Word(w, _, rest) => if |w| > MAX_LEN then Failed else ParseEq(rest, w, acc)
  }

  function ParseEq(t: string, key: string, acc: seq<Pair>): Parsed
    requires NoNul(t)
    decreases |t|, 3
  {
    var c := Peek(t);
    if c == '=' then ParseGt(t[1..], key, acc)
    else if c == '\0' then Failed
    else if !IsSpace(c) then Failed
    else ParseEq(t[1..], key, acc)
  }

  function ParseGt(t: string, key: string, acc: seq<Pair>): Parsed
    requires NoNul(t)
    decreases |t|, 2
  {
    if Peek(t) == '>' then ParseVal(t[1..], key, acc) else Failed
  }

  function ParseVal(t: string, key: string, acc: seq<Pair>): Parsed
    requires NoNul(t)
    decreases |t|, 1
  {
    match GetVal(t, WaitVal, true, "", false)
    case NoVal => Failed
    case Bad => Failed
    case Word(w, escaped, rest) =>
      if |w| > MAX_LEN then Failed else ParseDel(rest, acc + [Pair(key, ValueOf(w, escaped))])
  }

  function ParseDel(t: string, acc: seq<Pair>): Parsed
    requires NoNul(t)
    decreases |t|, 0
  {
    var c := Peek(t);
    if c == ',' then ParseKey(t[1..], acc)
    else if c == '\0' then Pairs(acc)
    else if !IsSpace(c) then Failed
    else ParseDel(t[1..], acc)
  }

  // ----- printing -----

  function Escape(s: string): string {
    if s == [] then [] else (if s[0] == '"' || s[0] == '\\' then ['\\', s[0]] else [s[0]]) + Escape(s[1..])
  }

  function PrintPair(p: Pair): string {
    "\"" + Escape(p.key) + "\"=>" + (if p.val.Null? then "NULL" else "\"" + Escape(p.val.s) + "\"")
  }

  function Print(ps: seq<Pair>): string {
    if ps == [] then "" else if |ps| == 1 then PrintPair(ps[0]) else PrintPair(ps[0]) + ", " + Print(ps[1..])
  }

  // ----- reading back what was printed -----

  lemma {:induction false} EscapedRead(s: string, rest: string, ignoreEq: bool, word: string)
    requires NoNul(s) && NoNul(rest)
    ensures var t := Escape(s) + ['"'] + rest;
      NoNul(t) && GetVal(t, InEsc, ignoreEq, word, true) == Word(word + s, true, rest)
    decreases |s|
  {
    var t := Escape(s) + ['"'] + rest;
    if s == [] {
      assert t == ['"'] + rest && t[1..] == rest;
      assert word + s == word;
    } else {
      EscapedRead(s[1..], rest, ignoreEq, word + [s[0]]);
      var t' := Escape(s[1..]) + ['"'] + rest;
      assert word + [s[0]] + s[1..] == word + s;
      if s[0] == '"' || s[0] == '\\' {
        assert t == ['\\', s[0]] + t';
        EscapedCharRead(s[0], t', ignoreEq, word);
      } else {
        assert t == [s[0]] + t';
        QuotedCharRead(s[0], t', ignoreEq, word);
      }
    }
  }

  lemma EscapedCharRead(c: char, t: string, ignoreEq: bool, word: string)
    requires NoNul(t) && (c == '"' || c == '\\')
    ensures NoNul(['\\', c] + t)
    ensures GetVal(['\\', c] + t, InEsc, ignoreEq, word, true) == GetVal(t, InEsc, ignoreEq, word + [c], true)
  {
    assert (['\\', c] + t)[1..] == [c] + t && ([c] + t)[1..] == t;
  }

  lemma QuotedCharRead(c: char, t: string, ignoreEq: bool, word: string)
    requires NoNul(t) && c != '"' && c != '\\' && c != '\0'
    ensures NoNul([c] + t)
    ensures GetVal([c] + t, InEsc, ignoreEq, word, true) == GetVal(t, InEsc, ignoreEq, word + [c], true)
  {
    assert ([c] + t)[1..] == t;
  }

  /** A quoted word, from its opening quote on. */
  lemma QuotedRead(s: string, rest: string, ignoreEq: bool)
    requires NoNul(s) && NoNul(rest)
    ensures var t := "\"" + Escape(s) + "\"" + rest;
      NoNul(t) && GetVal(t, WaitVal, ignoreEq, "", false) == Word(s, true, rest)
  {
    var t := "\"" + Escape(s) + "\"" + rest;
    EscapedRead(s, rest, ignoreEq, "");
    assert t[1..] == Escape(s) + ['"'] + rest;
    assert t == ['"'] + t[1..];
    assert "" + s == s;
  }

  predicate IsPlain(c: char) {
    c != '\\' && c != ',' && c != '\0' && !IsSpace(c)
  }

  lemma {:induction false} PlainRead(s: string, rest: string, word: string)
    requires forall i :: 0 <= i < |s| ==> IsPlain(s[i])
    requires NoNul(rest) && (rest == [] || rest[0] == ',')
    ensures NoNul(s + rest) && GetVal(s + rest, InVal, true, word, false) == Word(word + s, false, rest)
    decreases |s|
  {
    if s == [] {
      assert s + rest == rest && word + s == word;
    } else {
      PlainRead(s[1..], rest, word + [s[0]]);
      assert s + rest == [s[0]] + (s[1..] + rest);
      assert (s + rest)[1..] == s[1..] + rest;
      assert word + [s[0]] + s[1..] == word + s;
    }
  }

  /** NULL without quotes ends at a comma or at the end of the text. */
  lemma NullRead(rest: string)
    requires NoNul(rest) && (rest == [] || rest[0] == ',')
    ensures var t := "NULL" + rest; NoNul(t) && GetVal(t, WaitVal, true, "", false) == Word("NULL", false, rest)
  {
    var t := "NULL" + rest;
    PlainRead("ULL", rest, "N");
    assert t[1..] == "ULL" + rest;
    assert "" + ['N'] == "N" && "N" + "ULL" == "NULL";
  }

  predicate Printable(p: Pair) {
    NoNul(p.key) && |p.key| <= MAX_LEN && (p.val.Str? ==> NoNul(p.val.s) && |p.val.s| <= MAX_LEN)
  }

  lemma ValueRead(key: string, v: Value, rest: string, acc: seq<Pair>)
    requires NoNul(rest) && (rest == [] || rest[0] == ',') && (v.Str? ==> NoNul(v.s) && |v.s| <= MAX_LEN)
    ensures var t := (if v.Null? then "NULL" else "\"" + Escape(v.s) + "\"") + rest;
      NoNul(t) && ParseVal(t, key, acc) == ParseDel(rest, acc + [Pair(key, v)])
  {
    if v.Null? { NullRead(rest); } else { QuotedRead(v.s, rest, true); }
  }

  lemma ArrowRead(key: string, val: string, acc: seq<Pair>)
    requires NoNul(val)
    ensures NoNul("=>" + val) && ParseEq("=>" + val, key, acc) == ParseVal(val, key, acc)
  {
    var eq := "=>" + val;
    assert eq[1..] == ">" + val && eq[1..][1..] == val;
    assert ParseGt(eq[1..], key, acc) == ParseVal(val, key, acc);
  }

  function PrintVal(v: Value): string {
    if v.Null? then "NULL" else "\"" + Escape(v.s) + "\""
  }

  lemma PrintedPair(p: Pair, rest: string)
    ensures PrintPair(p) + rest == "\"" + Escape(p.key) + "\"" + ("=>" + (PrintVal(p.val) + rest))
  {
    assert PrintPair(p) == "\"" + Escape(p.key) + ("\"" + "=>") + PrintVal(p.val);
  }

  lemma PairRead(p: Pair, rest: string, acc: seq<Pair>)
    requires Printable(p) && NoNul(rest) && (rest == [] || rest[0] == ',')
    ensures NoNul(PrintPair(p) + rest) && ParseKey(PrintPair(p) + rest, acc) == ParseDel(rest, acc + [p])
  {
    var val := PrintVal(p.val) + rest;
    ValueRead(p.key, p.val, rest, acc);
    ArrowRead(p.key, val, acc);
    QuotedRead(p.key, "=>" + val, false);
    PrintedPair(p, rest);
  }

  /** Parsing the printed text gives the printed pairs: quotes, backslashes, "null" and NULL included. */
  lemma {:induction false} PrintedRead(ps: seq<Pair>, acc: seq<Pair>)
    requires forall i :: 0 <= i < |ps| ==> Printable(ps[i])
    ensures NoNul(Print(ps))
    ensures ParseKey(Print(ps), acc) == Pairs(acc + ps)
    decreases |ps|
  {
    if ps == [] {
      assert acc + ps == acc;
    } else if |ps| == 1 {
      PairRead(ps[0], "", acc);
      assert PrintPair(ps[0]) + "" == PrintPair(ps[0]);
      assert acc + [ps[0]] == acc + ps;
    } else {
      PrintedRead(ps[1..], acc + [ps[0]]);
      PairAhead(ps[0], Print(ps[1..]), acc);
      assert PrintPair(ps[0]) + (", " + Print(ps[1..])) == Print(ps);
      assert acc + [ps[0]] + ps[1..] == acc + ps;
    }
  }

  /** One pair and what is printed after it. */
  lemma PairAhead(p: Pair, tail: string, acc: seq<Pair>)
    requires Printable(p) && NoNul(tail)
    ensures var t := PrintPair(p) + (", " + tail);
      NoNul(t) && ParseKey(t, acc) == ParseKey(tail, acc + [p])
  {
    var rest := ", " + tail;
    PairRead(p, rest, acc);
    assert rest[1..] == " " + tail;
    SpaceBeforeKey(tail, acc + [p]);
  }

  lemma SpaceBeforeKey(t: string, acc: seq<Pair>)
    requires NoNul(t)
    ensures NoNul(" " + t) && ParseKey(" " + t, acc) == ParseKey(t, acc)
  {
    assert (" " + t)[1..] == t;
  }
}
