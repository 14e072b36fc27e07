/**
 The texts that hstore accepts, as a grammar: words that are quoted or bare, pairs, and commas; and the
 proof that the parser reads exactly the pairs that a text spells.
 */
module HstoreGrammar {
  import opened HstoreFormat
  import opened HstoreText

  // ----- words -----

  /** A character as written: on its own, or after a backslash. */
  datatype Letter = Letter(c: char, escaped: bool)

  function Written(ls: seq<Letter>): string {
    if ls == [] then [] else (if ls[0].escaped then ['\\', ls[0].c] else [ls[0].c]) + Written(ls[1..])
  }

  function Content(ls: seq<Letter>): (s: string)
    ensures |s| == |ls|
  {
    if ls == [] then [] else [ls[0].c] + Content(ls[1..])
  }

  /** Inside quotes only a quote and a backslash need a backslash. */
  predicate InQuotes(l: Letter) {
    l.c != '\0' && (l.escaped || (l.c != '"' && l.c != '\\'))
  }

  /** In a bare word also white space does, and in a key an equals sign, in a value a comma. */
  predicate InBare(l: Letter, isKey: bool) {
    l.c != '\0' && (l.escaped || (l.c != '\\' && !IsSpace(l.c) && l.c != if isKey then '=' else ','))
  }

  /** A bare word must not begin with a quote; a comma may begin a value. */
  predicate StartsBare(l: Letter, isKey: bool) {
    l.c != '\0' && (l.escaped || (l.c != '\\' && !IsSpace(l.c) && l.c != '"' && !(isKey && l.c == '=')))
  }

  datatype WordText = Quoted(letters: seq<Letter>) | Bare(letters: seq<Letter>)

  predicate IsWord(w: WordText, isKey: bool) {
    match w
    case Quoted(ls) => forall i :: 0 <= i < |ls| ==> InQuotes(ls[i])
    case Bare(ls) => |ls| > 0 && StartsBare(ls[0], isKey) && forall i :: 1 <= i < |ls| ==> InBare(ls[i], isKey)
  }

  function WordWritten(w: WordText): string {
    match w
    case Quoted(ls) => ['"'] + Written(ls) + ['"']
    case Bare(ls) => Written(ls)
  }

  // ----- pairs and texts -----

  predicate Blank(s: string) {
    forall i :: 0 <= i < |s| ==> IsSpace(s[i])
  }

  /** A pair with the white space around its parts. */
  datatype PairText = PairText(before: string, key: WordText, gap: string, after: string, val: WordText, end: string)

  predicate IsPair(p: PairText) {
    && IsWord(p.key, true) && IsWord(p.val, false)
    && Blank(p.before) && Blank(p.gap) && Blank(p.after) && Blank(p.end)
    && |p.key.letters| <= MAX_LEN && |p.val.letters| <= MAX_LEN
  }

  function PairWritten(p: PairText): string {
    p.before + WordWritten(p.key) + (p.gap + "=>" + (p.after + WordWritten(p.val) + p.end))
  }

  /** Null is the word null, in any case, without quotes. */
  function PairMeant(p: PairText): Pair {
    var v := Content(p.val.letters);
    Pair(Content(p.key.letters), if p.val.Bare? && IsNullWord(v) then Null else Str(v))
  }

  /** t is white space, or a pair, or a pair and a comma and the text of the other pairs. */
  ghost predicate Spells(t: string, ps: seq<Pair>)
    decreases |ps|, 0
  {
    if ps == [] then Blank(t)
    else exists p: PairText :: IsPair(p) && PairMeant(p) == ps[0] && SpellsRest(t, p, ps[1..])
  }

  ghost predicate SpellsRest(t: string, p: PairText, ps: seq<Pair>)
    decreases |ps|, 1
  {
    (t == PairWritten(p) && ps == []) ||
    (PairWritten(p) + "," <= t && Spells(t[|PairWritten(p)| + 1..], ps))
  }

  // ----- reading what is spelled -----

  lemma LetterRead(l: Letter, rest: string, st: WordState, ignoreEq: bool, word: string, escaped: bool)
    requires NoNul(rest) && ((st == InEsc && InQuotes(l)) || (st == InVal && InBare(l, !ignoreEq)))
    ensures var t := Written([l]) + rest;
      NoNul(t) && GetVal(t, st, ignoreEq, word, escaped) == GetVal(rest, st, ignoreEq, word + [l.c], escaped)
  {
    assert [l][1..] == [];
    var t := Written([l]) + rest;
    if l.escaped {
      assert t == ['\\', l.c] + rest;
      assert t[1..] == [l.c] + rest && t[1..][1..] == rest;
    } else {
      assert t == [l.c] + rest && t[1..] == rest;
    }
  }

  lemma WrittenCons(ls: seq<Letter>, rest: string)
    requires ls != []
    ensures Written(ls) + rest == Written([ls[0]]) + (Written(ls[1..]) + rest)
  {
    assert [ls[0]][1..] == [];
  }

  lemma {:induction false} QuotedRead(ls: seq<Letter>, rest: string, ignoreEq: bool, word: string)
    requires NoNul(rest) && forall i :: 0 <= i < |ls| ==> InQuotes(ls[i])
    ensures var t := Written(ls) + (['"'] + rest);
      NoNul(t) && GetVal(t, InEsc, ignoreEq, word, true) == Word(word + Content(ls), true, rest)
    decreases |ls|
  {
    var t := Written(ls) + (['"'] + rest);
    if ls == [] {
      assert t == ['"'] + rest && t[1..] == rest;
      assert word + Content(ls) == word;
    } else {
      QuotedRead(ls[1..], rest, ignoreEq, word + [ls[0].c]);
      WrittenCons(ls, ['"'] + rest);
      LetterRead(ls[0], Written(ls[1..]) + (['"'] + rest), InEsc, ignoreEq, word, true);
      assert word + [ls[0].c] + Content(ls[1..]) == word + Content(ls);
    }
  }

  /** Where a bare word ends. */
  predicate Stops(rest: string, isKey: bool) {
    rest == [] || IsSpace(rest[0]) || rest[0] == if isKey then '=' else ','
  }

  /** White space that ends a word goes with it. */
  function AfterBare(rest: string): string {
    if rest != [] && IsSpace(rest[0]) then rest[1..] else rest
  }

  lemma {:induction false} BareRead(ls: seq<Letter>, rest: string, ignoreEq: bool, word: string)
    requires NoNul(rest) && Stops(rest, !ignoreEq) && forall i :: 0 <= i < |ls| ==> InBare(ls[i], !ignoreEq)
    ensures NoNul(Written(ls) + rest)
    ensures GetVal(Written(ls) + rest, InVal, ignoreEq, word, false) == Word(word + Content(ls), false, AfterBare(rest))
    decreases |ls|
  {
    if ls == [] {
      assert Written(ls) + rest == rest && word + Content(ls) == word;
    } else {
      BareRead(ls[1..], rest, ignoreEq, word + [ls[0].c]);
      WrittenCons(ls, rest);
      LetterRead(ls[0], Written(ls[1..]) + rest, InVal, ignoreEq, word, false);
      assert word + [ls[0].c] + Content(ls[1..]) == word + Content(ls);
    }
  }

  lemma StartRead(l: Letter, rest: string, ignoreEq: bool)
    requires NoNul(rest) && StartsBare(l, !ignoreEq)
    ensures var t := Written([l]) + rest;
      NoNul(t) && GetVal(t, WaitVal, ignoreEq, "", false) == GetVal(rest, InVal, ignoreEq, [l.c], false)
  {
    assert [l][1..] == [];
    var t := Written([l]) + rest;
    if l.escaped {
      assert t == ['\\', l.c] + rest;
      assert t[1..] == [l.c] + rest && t[1..][1..] == rest;
    } else {
      assert t == [l.c] + rest && t[1..] == rest;
    }
    assert "" + [l.c] == [l.c];
  }

  lemma {:induction false} BlankRead(b: string, rest: string, ignoreEq: bool)
    requires Blank(b) && NoNul(rest)
    ensures NoNul(b + rest)
    ensures GetVal(b + rest, WaitVal, ignoreEq, "", false) == GetVal(rest, WaitVal, ignoreEq, "", false)
    decreases |b|
  {
    if b == [] {
      assert b + rest == rest;
    } else {
      BlankRead(b[1..], rest, ignoreEq);
      assert (b + rest)[1..] == b[1..] + rest;
    }
  }

  lemma QuotedWordRead(ls: seq<Letter>, rest: string, ignoreEq: bool)
    requires NoNul(rest) && forall i :: 0 <= i < |ls| ==> InQuotes(ls[i])
    ensures var t := WordWritten(Quoted(ls)) + rest;
      NoNul(t) && GetVal(t, WaitVal, ignoreEq, "", false) == Word(Content(ls), true, rest)
  {
    var t, u := WordWritten(Quoted(ls)) + rest, Written(ls) + (['"'] + rest);
    QuotedRead(ls, rest, ignoreEq, "");
    assert t == ['"'] + u && t[1..] == u;
    assert "" + Content(ls) == Content(ls);
  }

  lemma BareWordRead(ls: seq<Letter>, rest: string, ignoreEq: bool)
    requires IsWord(Bare(ls), !ignoreEq) && NoNul(rest) && Stops(rest, !ignoreEq)
    ensures var t := Written(ls) + rest;
      NoNul(t) && GetVal(t, WaitVal, ignoreEq, "", false) == Word(Content(ls), false, AfterBare(rest))
  {
    WrittenCons(ls, rest);
    BareRead(ls[1..], rest, ignoreEq, [ls[0].c]);
    StartRead(ls[0], Written(ls[1..]) + rest, ignoreEq);
  }

  /** A word after white space is read to its end. */
  lemma WordRead(b: string, w: WordText, rest: string, ignoreEq: bool)
    requires Blank(b) && IsWord(w, !ignoreEq) && NoNul(rest) && (w.Bare? ==> Stops(rest, !ignoreEq))
    ensures var t := b + (WordWritten(w) + rest);
      NoNul(t) && GetVal(t, WaitVal, ignoreEq, "", false) ==
        Word(Content(w.letters), w.Quoted?, if w.Quoted? then rest else AfterBare(rest))
  {
    if w.Quoted? { QuotedWordRead(w.letters, rest, ignoreEq); } else { BareWordRead(w.letters, rest, ignoreEq); }
    BlankRead(b, WordWritten(w) + rest, ignoreEq);
  }

  lemma {:induction false} GapRead(gap: string, rest: string, key: string, acc: seq<Pair>)
    requires Blank(gap) && NoNul(rest)
    ensures NoNul(gap + "=>" + rest) && ParseEq(gap + "=>" + rest, key, acc) == ParseVal(rest, key, acc)
    decreases |gap|
  {
    var t := gap + "=>" + rest;
    if gap == [] {
      ArrowRead(key, rest, acc);
      assert t == "=>" + rest;
    } else {
      GapRead(gap[1..], rest, key, acc);
      assert t[1..] == gap[1..] + "=>" + rest;
    }
  }

  lemma {:induction false} EndRead(end: string, rest: string, acc: seq<Pair>)
    requires Blank(end) && NoNul(rest) && (rest == [] || rest[0] == ',')
    ensures NoNul(end + rest)
    ensures ParseDel(end + rest, acc) == if rest == [] then Pairs(acc) else ParseKey(rest[1..], acc)
    decreases |end|
  {
    if end == [] {
      assert end + rest == rest;
    } else {
      EndRead(end[1..], rest, acc);
      assert (end + rest)[1..] == end[1..] + rest;
    }
  }

  /** What follows a word begins with white space or with the sign that comes next. */
  lemma AfterBlank(b: string, rest: string)
    requires Blank(b) && rest != [] && !IsSpace(rest[0])
    ensures AfterBare(b + rest) == AfterBare(b) + rest && Blank(AfterBare(b))
  {
    if b == [] { assert b + rest == rest; } else { assert (b + rest)[1..] == b[1..] + rest; }
  }

  lemma ValueRead(p: PairText, rest: string, key: string, acc: seq<Pair>)
    requires IsPair(p) && NoNul(rest) && (rest == [] || rest[0] == ',') && key == Content(p.key.letters)
    ensures var t := p.after + (WordWritten(p.val) + (p.end + rest));
      NoNul(t) && ParseVal(t, key, acc) ==
        if rest == [] then Pairs(acc + [PairMeant(p)]) else ParseKey(rest[1..], acc + [PairMeant(p)])
  {
    var more := p.end + rest;
    EndRead(p.end, rest, acc + [PairMeant(p)]);
    if rest == [] {
      assert more == p.end;
      assert AfterBare(more) == AfterBare(p.end) + rest;
    } else {
      AfterBlank(p.end, rest);
    }
    EndRead(AfterBare(p.end), rest, acc + [PairMeant(p)]);
    WordRead(p.after, p.val, more, true);
  }

  lemma PairTextRead(p: PairText, rest: string, acc: seq<Pair>)
    requires IsPair(p) && NoNul(rest) && (rest == [] || rest[0] == ',')
    ensures var t := PairWritten(p) + rest;
      NoNul(t) && ParseKey(t, acc) ==
        if rest == [] then Pairs(acc + [PairMeant(p)]) else ParseKey(rest[1..], acc + [PairMeant(p)])
  {
    var key, val := Content(p.key.letters), p.after + (WordWritten(p.val) + (p.end + rest));
    ValueRead(p, rest, key, acc);
    var eq := p.gap + ("=>" + val);
    AfterBlank(p.gap, "=>" + val);
    assert AfterBare(p.gap) + ("=>" + val) == AfterBare(p.gap) + "=>" + val;
    assert eq == p.gap + "=>" + val;
    GapRead(AfterBare(p.gap), val, key, acc);
    GapRead(p.gap, val, key, acc);
    WordRead(p.before, p.key, eq, false);
    Regroup(p, rest);
  }

  lemma Regroup(p: PairText, rest: string)
    ensures PairWritten(p) + rest ==
      p.before + (WordWritten(p.key) + (p.gap + ("=>" + (p.after + (WordWritten(p.val) + (p.end + rest))))))
  {
  }

  lemma BlankParsed(t: string, acc: seq<Pair>)
    requires Blank(t)
    ensures NoNul(t) && ParseKey(t, acc) == Pairs(acc)
  {
    BlankRead(t, "", false);
    assert t + "" == t;
  }

  /** The pairs that a text spells are the pairs read. */
  lemma {:induction false} SpelledIsRead(t: string, ps: seq<Pair>, acc: seq<Pair>)
    requires Spells(t, ps)
    ensures NoNul(t) && ParseKey(t, acc) == Pairs(acc + ps)
    decreases |ps|
  {
    if ps == [] {
      BlankParsed(t, acc);
      assert acc + ps == acc;
    } else {
      var p, last := SpellsParts(t, ps);
      if last {
        LastPairRead(t, p, ps, acc);
      } else {
        var rest := t[|PairWritten(p)| + 1..];
        SpelledIsRead(rest, ps[1..], acc + [ps[0]]);
        NextPairRead(t, p, rest, acc);
        OneOfAll(acc, ps);
      }
    }
  }

  lemma SpellsParts(t: string, ps: seq<Pair>) returns (p: PairText, last: bool)
    requires ps != [] && Spells(t, ps)
    ensures IsPair(p) && PairMeant(p) == ps[0]
    ensures last ==> t == PairWritten(p) && ps == [ps[0]]
    ensures !last ==> PairWritten(p) + "," <= t && Spells(t[|PairWritten(p)| + 1..], ps[1..])
  {
    p :| IsPair(p) && PairMeant(p) == ps[0] && SpellsRest(t, p, ps[1..]);
    last := t == PairWritten(p) && ps[1..] == [];
  }

  lemma OneOfAll(acc: seq<Pair>, ps: seq<Pair>)
    requires ps != []
    ensures acc + [ps[0]] + ps[1..] == acc + ps
  {
  }

  lemma LastPairRead(t: string, p: PairText, ps: seq<Pair>, acc: seq<Pair>)
    requires IsPair(p) && t == PairWritten(p) && ps == [PairMeant(p)]
    ensures NoNul(t) && ParseKey(t, acc) == Pairs(acc + ps)
  {
    PairTextRead(p, "", acc);
    assert PairWritten(p) + "" == t;
  }

  lemma NextPairRead(t: string, p: PairText, rest: string, acc: seq<Pair>)
    requires IsPair(p) && PairWritten(p) + "," <= t && rest == t[|PairWritten(p)| + 1..] && NoNul(rest)
    ensures NoNul(t) && ParseKey(t, acc) == ParseKey(rest, acc + [PairMeant(p)])
  {
    PairTextRead(p, "," + rest, acc);
    assert t == PairWritten(p) + ("," + rest) && ("," + rest)[1..] == rest;
  }

  // ----- what is read is spelled -----

  lemma LetterAhead(l: Letter, ls: seq<Letter>)
    ensures Written([l] + ls) == Written([l]) + Written(ls) && Content([l] + ls) == [l.c] + Content(ls)
  {
    assert ([l] + ls)[1..] == ls && [l][1..] == [];
  }

  /** The first letter of what is left of a word. */
  lemma LetterFound(t: string, st: WordState, ignoreEq: bool, word: string, escaped: bool)
    returns (l: Letter, rest: string)
    requires NoNul(t) && t != [] && GetVal(t, st, ignoreEq, word, escaped).Word?
    requires (st == InEsc && t[0] != '"') || (st == InVal && !Stops(t, !ignoreEq))
    ensures if st == InEsc then InQuotes(l) else InBare(l, !ignoreEq)
    ensures NoNul(rest) && |rest| < |t| && t == Written([l]) + rest
    ensures GetVal(t, st, ignoreEq, word, escaped) == GetVal(rest, st, ignoreEq, word + [l.c], escaped)
  {
    if t[0] == '\\' {
      l, rest := Letter(t[1], true), t[2..];
      assert t[1..][1..] == t[2..] && t == ['\\', t[1]] + rest;
    } else {
      l, rest := Letter(t[0], false), t[1..];
    }
    assert [l][1..] == [];
  }

  lemma OneMoreLetter(l: Letter, ls: seq<Letter>, word: string, rest: string, tail: string)
    requires rest == Written(ls) + tail
    ensures Written([l]) + rest == Written([l] + ls) + tail
    ensures word + [l.c] + Content(ls) == word + Content([l] + ls)
  {
    LetterAhead(l, ls);
  }

  lemma {:induction false} QuotedFound(t: string, ignoreEq: bool, word: string) returns (ls: seq<Letter>)
    requires NoNul(t) && GetVal(t, InEsc, ignoreEq, word, true).Word?
    ensures forall i :: 0 <= i < |ls| ==> InQuotes(ls[i])
    ensures var g := GetVal(t, InEsc, ignoreEq, word, true);
      t == Written(ls) + (['"'] + g.rest) && g.word == word + Content(ls) && g.escaped
    decreases |t|
  {
    if t[0] == '"' {
      ls := [];
      assert t == ['"'] + t[1..] && word + Content(ls) == word;
    } else {
      var l, rest := LetterFound(t, InEsc, ignoreEq, word, true);
      var more := QuotedFound(rest, ignoreEq, word + [l.c]);
      OneMoreLetter(l, more, word, rest, ['"'] + GetVal(rest, InEsc, ignoreEq, word + [l.c], true).rest);
      ls := [l] + more;
    }
  }

  lemma {:induction false} BareFound(t: string, ignoreEq: bool, word: string) returns (ls: seq<Letter>, tail: string)
    requires NoNul(t) && GetVal(t, InVal, ignoreEq, word, false).Word?
    ensures forall i :: 0 <= i < |ls| ==> InBare(ls[i], !ignoreEq)
    ensures t == Written(ls) + tail && Stops(tail, !ignoreEq)
    ensures GetVal(t, InVal, ignoreEq, word, false) == Word(word + Content(ls), false, AfterBare(tail))
    decreases |t|
  {
    if Stops(t, !ignoreEq) {
      ls, tail := [], t;
      assert word + Content(ls) == word;
    } else {
      var l, rest := LetterFound(t, InVal, ignoreEq, word, false);
      var more;
      more, tail := BareFound(rest, ignoreEq, word + [l.c]);
      OneMoreLetter(l, more, word, rest, tail);
      ls := [l] + more;
    }
  }

  /** The word that a text begins with, after white space; tail is what follows it. */
  ghost predicate Begins(t: string, isKey: bool, b: string, w: WordText, tail: string) {
    Blank(b) && IsWord(w, isKey) && t == b + (WordWritten(w) + tail) && (w.Bare? ==> Stops(tail, isKey))
  }

  lemma {:induction false} WordFound(t: string, ignoreEq: bool) returns (b: string, w: WordText, tail: string)
    requires NoNul(t) && GetVal(t, WaitVal, ignoreEq, "", false).Word?
    ensures Begins(t, !ignoreEq, b, w, tail)
    ensures GetVal(t, WaitVal, ignoreEq, "", false) ==
      Word(Content(w.letters), w.Quoted?, if w.Quoted? then tail else AfterBare(tail))
    decreases |t|
  {
    if IsSpace(t[0]) {
      b, w, tail := WordFound(t[1..], ignoreEq);
      b := SpaceAhead(t, !ignoreEq, b, w, tail);
    } else if t[0] == '"' {
      w, tail := QuoteFound(t, ignoreEq);
      b := "";
      assert b + (WordWritten(w) + tail) == WordWritten(w) + tail;
    } else {
      b := "";
      w, tail := StartFound(t, ignoreEq);
      assert b + (WordWritten(w) + tail) == WordWritten(w) + tail;
    }
  }

  lemma SpaceAhead(t: string, isKey: bool, b: string, w: WordText, tail: string) returns (b': string)
    requires t != [] && IsSpace(t[0]) && Begins(t[1..], isKey, b, w, tail)
    ensures Begins(t, isKey, b', w, tail)
  {
    b' := [t[0]] + b;
    assert t == [t[0]] + t[1..] && b' + (WordWritten(w) + tail) == [t[0]] + (b + (WordWritten(w) + tail));
  }

  lemma QuoteFound(t: string, ignoreEq: bool) returns (w: WordText, tail: string)
    requires NoNul(t) && GetVal(t, WaitVal, ignoreEq, "", false).Word? && t[0] == '"'
    ensures w.Quoted? && IsWord(w, !ignoreEq) && t == WordWritten(w) + tail
    ensures GetVal(t, WaitVal, ignoreEq, "", false) == Word(Content(w.letters), true, tail)
  {
    var u := t[1..];
    assert GetVal(t, WaitVal, ignoreEq, "", false) == GetVal(u, InEsc, ignoreEq, "", true);
    var ls := QuotedFound(u, ignoreEq, "");
    w, tail := Quoted(ls), GetVal(u, InEsc, ignoreEq, "", true).rest;
    assert "" + Content(ls) == Content(ls);
    QuotesAround(t, u, ls, tail);
  }

  lemma QuotesAround(t: string, u: string, ls: seq<Letter>, tail: string)
    requires t != [] && t[0] == '"' && u == t[1..] && u == Written(ls) + (['"'] + tail)
    ensures t == WordWritten(Quoted(ls)) + tail
  {
    assert t == ['"'] + u;
  }

  lemma StartFound(t: string, ignoreEq: bool) returns (w: WordText, tail: string)
    requires NoNul(t) && GetVal(t, WaitVal, ignoreEq, "", false).Word? && !IsSpace(t[0]) && t[0] != '"'
    ensures w.Bare? && IsWord(w, !ignoreEq) && t == WordWritten(w) + tail && Stops(tail, !ignoreEq)
    ensures GetVal(t, WaitVal, ignoreEq, "", false) == Word(Content(w.letters), false, AfterBare(tail))
  {
    var l, rest := FirstFound(t, ignoreEq);
    var ls;
    ls, tail := BareFound(rest, ignoreEq, [l.c]);
    OneMoreLetter(l, ls, "", rest, tail);
    assert "" + [l.c] + Content(ls) == [l.c] + Content(ls) && "" + Content([l] + ls) == Content([l] + ls);
    w := Bare([l] + ls);
  }

  lemma FirstFound(t: string, ignoreEq: bool) returns (l: Letter, rest: string)
    requires NoNul(t) && GetVal(t, WaitVal, ignoreEq, "", false).Word? && !IsSpace(t[0]) && t[0] != '"'
    ensures StartsBare(l, !ignoreEq) && NoNul(rest) && t == Written([l]) + rest
    ensures GetVal(t, WaitVal, ignoreEq, "", false) == GetVal(rest, InVal, ignoreEq, [l.c], false)
  {
    if t[0] == '\\' {
      l, rest := Letter(t[1], true), t[2..];
      assert t[1..][1..] == t[2..] && t == ['\\', t[1]] + rest;
    } else {
      l, rest := Letter(t[0], false), t[1..];
    }
    assert [l][1..] == [] && "" + [l.c] == [l.c];
  }

  lemma {:induction false} NothingFound(t: string, ignoreEq: bool, st: WordState, word: string, escaped: bool)
    requires NoNul(t) && GetVal(t, st, ignoreEq, word, escaped).NoVal?
    ensures st == WaitVal && Blank(t)
    decreases |t|
  {
    if t != [] {
      var c := t[0];
      var mv := Next(st, c, ignoreEq);
      NothingFound(t[1..], ignoreEq, mv.st, if mv.append then word + [c] else word,
                   escaped || (st == WaitVal && c == '"'));
    }
  }

  lemma {:induction false} GapFound(t: string, key: string, acc: seq<Pair>) returns (gap: string, val: string)
    requires NoNul(t) && ParseEq(t, key, acc).Pairs?
    ensures Blank(gap) && t == gap + "=>" + val && NoNul(val) && ParseEq(t, key, acc) == ParseVal(val, key, acc)
    decreases |t|
  {
    if t[0] == '=' {
      gap, val := "", t[2..];
      assert t[1..][1..] == t[2..];
      assert t == gap + "=>" + val;
    } else {
      gap, val := GapFound(t[1..], key, acc);
      gap := [t[0]] + gap;
    }
  }

  lemma {:induction false} EndFound(t: string, acc: seq<Pair>) returns (end: string, rest: string)
    requires NoNul(t) && ParseDel(t, acc).Pairs?
    ensures Blank(end) && t == end + rest && NoNul(rest) && (rest == [] || rest[0] == ',')
    ensures ParseDel(t, acc) == if rest == [] then Pairs(acc) else ParseKey(rest[1..], acc)
    decreases |t|
  {
    if t == [] || t[0] == ',' {
      end, rest := "", t;
    } else {
      end, rest := EndFound(t[1..], acc);
      end := [t[0]] + end;
    }
  }

  /** The white space that ended a bare word belongs to what follows. */
  function WithSpace(w: WordText, tail: string, blank: string): string {
    if w.Bare? && tail != [] && IsSpace(tail[0]) then [tail[0]] + blank else blank
  }

  lemma WithSpaceFits(w: WordText, tail: string, blank: string, rest: string)
    requires Blank(blank) && (if w.Quoted? then tail else AfterBare(tail)) == blank + rest
    ensures Blank(WithSpace(w, tail, blank)) && tail == WithSpace(w, tail, blank) + rest
  {
    if w.Bare? && tail != [] && IsSpace(tail[0]) { assert tail == [tail[0]] + tail[1..]; }
  }

  lemma GapWithSpace(w: WordText, tail: string, blank: string, val: string) returns (gap: string)
    requires Blank(blank) && (if w.Quoted? then tail else AfterBare(tail)) == blank + "=>" + val
    ensures Blank(gap) && tail == gap + ("=>" + val)
  {
    assert blank + "=>" + val == blank + ("=>" + val);
    WithSpaceFits(w, tail, blank, "=>" + val);
    gap := WithSpace(w, tail, blank);
  }

  lemma KeyWord(t: string, acc: seq<Pair>)
    requires NoNul(t) && ParseKey(t, acc).Pairs? && !Blank(t)
    ensures var g := GetVal(t, WaitVal, false, "", false);
      g.Word? && |g.word| <= MAX_LEN && ParseKey(t, acc) == ParseEq(g.rest, g.word, acc)
  {
    if GetVal(t, WaitVal, false, "", false).NoVal? { NothingFound(t, false, WaitVal, "", false); }
  }

  lemma KeyFound(t: string, acc: seq<Pair>) returns (before: string, key: WordText, gap: string, val: string)
    requires NoNul(t) && ParseKey(t, acc).Pairs? && !Blank(t)
    ensures Blank(before) && Blank(gap) && IsWord(key, true) && |key.letters| <= MAX_LEN && NoNul(val)
    ensures t == before + (WordWritten(key) + (gap + ("=>" + val)))
    ensures ParseKey(t, acc) == ParseVal(val, Content(key.letters), acc)
  {
    KeyWord(t, acc);
    var tail;
    before, key, tail := WordFound(t, false);
    var rest := if key.Quoted? then tail else AfterBare(tail);
    gap, val := GapFound(rest, Content(key.letters), acc);
    gap := GapWithSpace(key, tail, gap, val);
  }

  lemma ValFound(t: string, key: string, acc: seq<Pair>)
    returns (after: string, val: WordText, end: string, rest: string)
    requires NoNul(t) && ParseVal(t, key, acc).Pairs?
    ensures Blank(after) && Blank(end) && IsWord(val, false) && |val.letters| <= MAX_LEN
    ensures t == after + (WordWritten(val) + (end + rest)) && NoNul(rest) && (rest == [] || rest[0] == ',')
  {
    var tail;
    after, val, tail := WordFound(t, true);
    var g := GetVal(t, WaitVal, true, "", false);
    end, rest := EndFound(g.rest, acc + [Pair(key, ValueOf(g.word, g.escaped))]);
    WithSpaceFits(val, tail, end, rest);
    end := WithSpace(val, tail, end);
  }

  /** The first pair of a text that is accepted. */
  lemma PairFound(t: string, acc: seq<Pair>) returns (p: PairText, rest: string)
    requires NoNul(t) && ParseKey(t, acc).Pairs? && !Blank(t)
    ensures IsPair(p) && t == PairWritten(p) + rest && NoNul(rest) && (rest == [] || rest[0] == ',')
    ensures ParseKey(t, acc) ==
      if rest == [] then Pairs(acc + [PairMeant(p)]) else ParseKey(rest[1..], acc + [PairMeant(p)])
  {
    var before, key, gap, val := KeyFound(t, acc);
    var after, v, end, rest' := ValFound(val, Content(key.letters), acc);
    p, rest := PairText(before, key, gap, after, v, end), rest';
    Regroup(p, rest);
    PairTextRead(p, rest, acc);
  }

  /** Every accepted text spells the pairs read from it. */
  lemma {:induction false} ReadIsSpelled(t: string, acc: seq<Pair>) returns (ps: seq<Pair>)
    requires NoNul(t) && ParseKey(t, acc).Pairs?
    ensures ParseKey(t, acc).ps == acc + ps && Spells(t, ps)
    decreases |t|
  {
    if Blank(t) {
      BlankParsed(t, acc);
      ps := [];
      assert acc + ps == acc;
    } else {
      var p, rest := PairFound(t, acc);
      if rest == [] {
        ps := [PairMeant(p)];
        SpellsOne(t, p);
      } else {
        var more := ReadIsSpelled(rest[1..], acc + [PairMeant(p)]);
        ps := SpellsOneMore(t, p, rest, more, acc);
      }
    }
  }

  lemma SpellsOne(t: string, p: PairText)
    requires IsPair(p) && t == PairWritten(p) + []
    ensures Spells(t, [PairMeant(p)])
  {
    assert t == PairWritten(p) && [PairMeant(p)][1..] == [];
    assert SpellsRest(t, p, [PairMeant(p)][1..]);
  }

  lemma SpellsOneMore(t: string, p: PairText, rest: string, more: seq<Pair>, acc: seq<Pair>) returns (ps: seq<Pair>)
    requires IsPair(p) && t == PairWritten(p) + rest && rest != [] && rest[0] == ',' && Spells(rest[1..], more)
    ensures Spells(t, ps) && acc + [PairMeant(p)] + more == acc + ps
  {
    ps := [PairMeant(p)] + more;
    assert ps[1..] == more && rest == "," + rest[1..];
    assert t[|PairWritten(p)| + 1..] == rest[1..];
    assert SpellsRest(t, p, ps[1..]);
  }

  /** r is what t spells: these pairs and no others, or nothing. */
  ghost predicate ReadsAs(t: string, r: Parsed) {
    forall ps :: r == Pairs(ps) <==> Spells(t, ps)
  }

  /** The parser reads a text as ps exactly if the text spells ps, and so refuses it exactly if it spells nothing. */
  lemma ParsedExactly(t: string)
    requires NoNul(t)
    ensures ReadsAs(t, ParseKey(t, []))
  {
    var none: seq<Pair> := [];
    if ParseKey(t, []).Pairs? {
      var qs := ReadIsSpelled(t, []);
      assert none + qs == qs;
    }
    forall qs | Spells(t, qs) ensures ParseKey(t, []) == Pairs(qs) {
      SpelledIsRead(t, qs, []);
      assert none + qs == qs;
    }
  }

  /** g is the word that t begins with, or says that there is none. */
  ghost predicate WordAt(t: string, isKey: bool, g: Got) {
    && (g.NoVal? <==> Blank(t))
    && (g.Word? <==> exists b, w, tail :: Begins(t, isKey, b, w, tail))
    && (forall b, w, tail :: Begins(t, isKey, b, w, tail) ==>
      g == Word(Content(w.letters), w.Quoted?, if w.Quoted? then tail else AfterBare(tail)))
  }

  lemma WordExactly(t: string, isKey: bool)
    requires NoNul(t)
    ensures WordAt(t, isKey, GetVal(t, WaitVal, !isKey, "", false))
  {
    var g := GetVal(t, WaitVal, !isKey, "", false);
    if g.NoVal? { NothingFound(t, !isKey, WaitVal, "", false); }
    if Blank(t) {
      BlankRead(t, "", !isKey);
      assert t + "" == t;
    }
    if g.Word? { var b, w, tail := WordFound(t, !isKey); }
    forall b, w, tail | Begins(t, isKey, b, w, tail)
      ensures g == Word(Content(w.letters), w.Quoted?, if w.Quoted? then tail else AfterBare(tail))
    {
      assert forall i :: 0 <= i < |tail| ==> tail[i] == t[|b| + |WordWritten(w)| + i];
      WordRead(b, w, tail, !isKey);
    }
  }

  // ----- the spelling that is printed -----

  /** Only quotes and backslashes are escaped. */
  function Needful(s: string): (ls: seq<Letter>)
    ensures |ls| == |s| && forall i :: 0 <= i < |s| ==> ls[i] == Letter(s[i], s[i] == '"' || s[i] == '\\')
  {
    seq(|s|, i requires 0 <= i < |s| => Letter(s[i], s[i] == '"' || s[i] == '\\'))
  }

  /** Every word is quoted, except NULL; there is no white space but before. */
  function PrintedText(p: Pair, before: string): PairText {
    PairText(before, Quoted(Needful(p.key)), "", "",
             if p.val.Null? then Bare(Needful("NULL")) else Quoted(Needful(p.val.s)), "")
  }

  function Texts(ps: seq<Pair>, before: string): string {
    if ps == [] then []
    else if |ps| == 1 then PairWritten(PrintedText(ps[0], before))
    else PairWritten(PrintedText(ps[0], before)) + "," + Texts(ps[1..], " ")
  }

  lemma {:induction false} NeedfulWritten(s: string)
    ensures Written(Needful(s)) == Escape(s)
  {
    if s != [] {
      NeedfulWritten(s[1..]);
      assert Needful(s)[1..] == Needful(s[1..]);
    }
  }

  lemma PairPrinted(p: Pair, before: string)
    ensures PairWritten(PrintedText(p, before)) == before + PrintPair(p)
  {
    NeedfulWritten(p.key);
    if p.val.Null? {
      NeedfulWritten("NULL");
      assert Escape("NULL") == "NULL" by { NullEscaped(); }
    } else {
      NeedfulWritten(p.val.s);
    }
    var t := PrintedText(p, before);
    assert WordWritten(t.key) == "\"" + Escape(p.key) + "\"";
    assert WordWritten(t.val) == PrintVal(p.val);
    assert "" + "=>" + ("" + PrintVal(p.val) + "") == "=>" + PrintVal(p.val);
    PrintedPair(p, "");
    assert PrintPair(p) + "" == PrintPair(p) && PrintVal(p.val) + "" == PrintVal(p.val);
  }

  lemma NullEscaped()
    ensures Escape("NULL") == "NULL"
  {
    assert "NULL"[1..] == "ULL" && "ULL"[1..] == "LL" && "LL"[1..] == "L" && "L"[1..] == "";
    assert Escape("L") == "L" && Escape("LL") == "LL" && Escape("ULL") == "ULL";
  }

  lemma JoinPrinted(before: string, x: string, rest: string, t: string)
    requires t == " " + rest
    ensures before + (x + ", " + rest) == before + x + "," + t
  {
  }

  /** What is printed is the spelling with quoted words, needful escapes, and one space after each comma. */
  lemma {:induction false} PrintedExactly(ps: seq<Pair>, before: string)
    requires ps != []
    ensures before + Print(ps) == Texts(ps, before)
    decreases |ps|
  {
    PairPrinted(ps[0], before);
    if |ps| > 1 {
      PrintedExactly(ps[1..], " ");
      JoinPrinted(before, PrintPair(ps[0]), Print(ps[1..]), Texts(ps[1..], " "));
    }
  }
}
