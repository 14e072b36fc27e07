/** Runs of any interleaving: nothing is lost, nothing is stored twice, and scans find what was there before them. */
module BloomRuns {
  import opened BloomSign
  import opened BloomRows
  import opened BloomInsert

  predicate Schedule(s: State, who: seq<nat>) {
    forall i :: 0 <= i < |who| ==> who[i] < |s.procs|
  }

  /** The state after each of the named ones has moved in turn. */
  ghost function Run(opts: Options, s: State, who: seq<nat>): (r: State)
    requires Sound(opts) && Ok(opts, s) && Schedule(s, who)
    ensures Ok(opts, r) && |r.procs| == |s.procs|
  {
    if who == [] then s
    else
      var n := |who| - 1;
      var r := Run(opts, s, who[..n]);
      StepOk(opts, r, who[n]);
      LockKept(opts, r, who[n]);
      Step(opts, r, who[n])
  }

  lemma {:induction false} RunGrows(opts: Options, s: State, who: seq<nat>)
    requires Sound(opts) && Ok(opts, s) && Schedule(s, who)
    ensures Grown(s.pages, Run(opts, s, who).pages)
  {
    if who != [] {
      var n := |who| - 1;
      var r := Run(opts, s, who[..n]);
      RunGrows(opts, s, who[..n]);
      StepGrows(opts, r, who[n]);
      GrownTwice(s.pages, r.pages, Step(opts, r, who[n]).pages);
    }
  }

  // ----- conservation -----

  ghost function Contents(pages: seq<Page>): multiset<Tuple> {
    if pages == [] then multiset{} else Contents(pages[..|pages| - 1]) + multiset(pages[|pages| - 1])
  }

  /** The tuples of the inserts that are done. */
  ghost function Inserted(procs: seq<Proc>): multiset<Tuple> {
    if procs == [] then multiset{} else Inserted(procs[..|procs| - 1]) + ByOne(procs[|procs| - 1])
  }

  ghost function ByOne(proc: Proc): multiset<Tuple> {
    if proc.Done? then multiset{proc.t} else multiset{}
  }

  lemma {:induction false} ContentsAdd(pages: seq<Page>, b: nat, t: Tuple)
    requires b < |pages|
    ensures Contents(AddTo(pages, b, t)) == Contents(pages) + multiset{t}
  {
    var n, more := |pages| - 1, AddTo(pages, b, t);
    if b == n {
      assert more[..n] == pages[..n];
      assert multiset(more[n]) == multiset(pages[n]) + multiset{t};
    } else {
      ContentsAdd(pages[..n], b, t);
      assert more[..n] == AddTo(pages[..n], b, t);
    }
  }

  lemma ContentsNew(pages: seq<Page>, t: Tuple)
    ensures Contents(pages + [[t]]) == Contents(pages) + multiset{t}
  {
    assert (pages + [[t]])[..|pages|] == pages;
    assert multiset([t]) == multiset{t};
  }

  lemma Swap(a: multiset<Tuple>, b: multiset<Tuple>, c: multiset<Tuple>)
    ensures (a + b) + c == (a + c) + b
  {
  }

  lemma {:induction false} InsertedMove(procs: seq<Proc>, p: nat, x: Proc)
    requires p < |procs| && !procs[p].Done?
    ensures Inserted(procs[p := x]) == Inserted(procs) + ByOne(x)
  {
    var n, more := |procs| - 1, procs[p := x];
    if p == n {
      assert more[..n] == procs[..n];
      assert ByOne(procs[n]) == multiset{};
    } else {
      InsertedMove(procs[..n], p, x);
      assert more[..n] == procs[..n][p := x];
      Swap(Inserted(procs[..n]), ByOne(x), ByOne(procs[n]));
    }
  }

  /** The index of r holds what that of s held, and the tuples of the inserts done since. */
  ghost predicate Conserved(s: State, r: State) {
    Contents(r.pages) + Inserted(s.procs) == Contents(s.pages) + Inserted(r.procs)
  }

  lemma ConservedCount(s: State, r: State, t: Tuple)
    requires Conserved(s, r)
    ensures Contents(r.pages)[t] + Inserted(s.procs)[t] == Contents(s.pages)[t] + Inserted(r.procs)[t]
  {
    assert (Contents(r.pages) + Inserted(s.procs))[t] == (Contents(s.pages) + Inserted(r.procs))[t];
  }

  lemma ConservedTwice(s: State, r: State, r': State)
    requires Conserved(s, r) && Conserved(r, r')
    ensures Conserved(s, r')
  {
    var left, right := Contents(r'.pages) + Inserted(s.procs), Contents(s.pages) + Inserted(r'.procs);
    forall t: Tuple ensures left[t] == right[t] {
      ConservedCount(s, r, t);
      ConservedCount(r, r', t);
    }
  }

  lemma StepConserves(opts: Options, s: State, p: nat)
    requires Sound(opts) && Ok(opts, s) && p < |s.procs|
    ensures Runnable(s, p)
    ensures Conserved(s, Step(opts, s, p))
  {
    StepGrows(opts, s, p);
    assert ProcOk(opts, s.pages, s.meta, s.procs[p]);
    if !s.procs[p].Done? {
      StepContents(opts, s, p);
      MoveConserves(s, Step(opts, s, p), p);
    }
  }

  lemma StepContents(opts: Options, s: State, p: nat)
    requires Runnable(s, p) && !s.procs[p].Done?
    ensures var s' := Step(opts, s, p);
      && |s'.procs| == |s.procs| && s'.procs == s.procs[p := s'.procs[p]]
      && Contents(s'.pages) == Contents(s.pages) + ByOne(s'.procs[p])
  {
    var b := StepPages(opts, s, p);
    var s' := Step(opts, s, p);
    AddContents(s.pages, s'.pages, s'.procs[p], b);
  }

  /** Where the mover put its tuple: on page b, or on a new page, if it is done now. */
  ghost predicate Put(pages: seq<Page>, pages': seq<Page>, proc: Proc, b: nat) {
    if !proc.Done? then pages' == pages
    else if b < |pages| then pages' == AddTo(pages, b, proc.t)
    else pages' == pages + [[proc.t]]
  }

  lemma StepPages(opts: Options, s: State, p: nat) returns (b: nat)
    requires Runnable(s, p) && !s.procs[p].Done?
    ensures var s' := Step(opts, s, p);
      && |s'.procs| == |s.procs| && s'.procs == s.procs[p := s'.procs[p]]
      && Put(s.pages, s'.pages, s'.procs[p], b)
  {
    b := 0;
    match s.procs[p]
    case First(_, at) => b := at;
    case Listing(_, k) => b := if k < s.meta.nEnd then s.meta.notFull[k] else |s.pages|;
    case _ =>
  }

  lemma AddContents(pages: seq<Page>, pages': seq<Page>, proc: Proc, b: nat)
    requires Put(pages, pages', proc, b)
    ensures Contents(pages') == Contents(pages) + ByOne(proc)
  {
    if proc.Done? {
      if b < |pages| { ContentsAdd(pages, b, proc.t); } else { ContentsNew(pages, proc.t); }
    }
  }

  lemma MoveConserves(s: State, r: State, p: nat)
    requires p < |s.procs| && !s.procs[p].Done?
    requires |r.procs| == |s.procs| && r.procs == s.procs[p := r.procs[p]]
    requires Contents(r.pages) == Contents(s.pages) + ByOne(r.procs[p])
    ensures Conserved(s, r)
  {
    InsertedMove(s.procs, p, r.procs[p]);
  }

  /** The index holds what it held, and the tuples of the inserts done since, each as often as it was inserted. */
  lemma {:induction false} RunConserves(opts: Options, s: State, who: seq<nat>)
    requires Sound(opts) && Ok(opts, s) && Schedule(s, who)
    ensures Conserved(s, Run(opts, s, who))
  {
    if who != [] {
      var n := |who| - 1;
      var r := Run(opts, s, who[..n]);
      RunConserves(opts, s, who[..n]);
      StepConserves(opts, r, who[n]);
      ConservedTwice(s, r, Step(opts, r, who[n]));
    }
  }

  // ----- exactly one page -----

  lemma {:induction false} OnSomePage(pages: seq<Page>, t: Tuple) returns (b: nat)
    requires Contents(pages)[t] > 0
    ensures b < |pages| && t in pages[b]
    ensures Contents(pages)[t] == 1 ==> multiset(pages[b])[t] == 1 && forall c ::
      0 <= c < |pages| && c != b ==> t !in pages[c]
  {
    var n := |pages| - 1;
    if t in pages[n] {
      b := n;
      assert multiset(pages[n])[t] > 0;
      if Contents(pages)[t] == 1 { NotOnPages(pages[..n], t); }
    } else {
      assert multiset(pages[n])[t] == 0;
      b := OnSomePage(pages[..n], t);
    }
  }

  lemma {:induction false} NotOnPages(pages: seq<Page>, t: Tuple)
    requires Contents(pages)[t] == 0
    ensures forall c :: 0 <= c < |pages| ==> t !in pages[c]
  {
    if pages != [] {
      var n := |pages| - 1;
      assert multiset(pages[n])[t] == 0;
      NotOnPages(pages[..n], t);
    }
  }

  /** No insert is done yet. */
  predicate Fresh(s: State) {
    forall p :: 0 <= p < |s.procs| ==> !s.procs[p].Done?
  }

  lemma {:induction false} NoneInserted(procs: seq<Proc>)
    requires forall p :: 0 <= p < |procs| ==> !procs[p].Done?
    ensures Inserted(procs) == multiset{}
  {
    if procs != [] { NoneInserted(procs[..|procs| - 1]); }
  }

  /** Done inserts of t are counted. */
  lemma {:induction false} InsertedCounts(procs: seq<Proc>, p: nat, t: Tuple)
    requires p < |procs|
    ensures procs[p] == Done(t) ==> Inserted(procs)[t] >= 1
    ensures (forall q :: 0 <= q < |procs| && q != p ==> procs[q] != Done(t)) ==> Inserted(procs)[t] <= 1
    ensures (forall q :: 0 <= q < |procs| ==> procs[q] != Done(t)) ==> Inserted(procs)[t] == 0
  {
    var n := |procs| - 1;
    var fewer := procs[..n];
    assert Inserted(procs)[t] == Inserted(fewer)[t] + ByOne(procs[n])[t];
    assert ByOne(procs[n])[t] == if procs[n] == Done(t) then 1 else 0;
    assert forall q :: 0 <= q < n ==> fewer[q] == procs[q];
    if p < n {
      InsertedCounts(fewer, p, t);
    } else if n > 0 {
      InsertedCounts(fewer, 0, t);
    }
  }

  lemma CompletedCount(s: State, r: State, p: nat, t: Tuple)
    requires Fresh(s) && Conserved(s, r) && p < |r.procs| && r.procs[p] == Done(t)
    ensures Contents(r.pages)[t] >= 1
    ensures Contents(s.pages)[t] == 0 && (forall q :: 0 <= q < |r.procs| && q != p ==> r.procs[q] != Done(t)) ==>
      Contents(r.pages)[t] == 1
  {
    NoneInserted(s.procs);
    InsertedCounts(r.procs, p, t);
    ConservedCount(s, r, t);
  }

  /** After any run, the tuple of a completed insert, which no one else inserts, is on exactly one page, once. */
  lemma CompletedOnExactlyOnePage(opts: Options, s: State, who: seq<nat>, p: nat, t: Tuple) returns (b: nat)
    requires Sound(opts) && Ok(opts, s) && Fresh(s) && Schedule(s, who) && p < |s.procs|
    requires Contents(s.pages)[t] == 0
    requires Run(opts, s, who).procs[p] == Done(t)
    requires forall q :: 0 <= q < |s.procs| && q != p ==> Run(opts, s, who).procs[q] != Done(t)
    ensures var r := Run(opts, s, who);
      && b < |r.pages| && multiset(r.pages[b])[t] == 1
      && forall c :: 0 <= c < |r.pages| && c != b ==> t !in r.pages[c]
  {
    var r := Run(opts, s, who);
    RunConserves(opts, s, who);
    CompletedCount(s, r, p, t);
    b := OnSomePage(r.pages, t);
  }

  // ----- room -----

  ghost predicate Listed(m: Meta, b: nat) {
    exists i :: m.nStart <= i < m.nEnd && i < |m.notFull| && m.notFull[i] == b
  }

  /** A page with room that no insert would look at. */
  ghost predicate Forgotten(opts: Options, s: State, b: nat) {
    1 <= b < |s.pages| && Fits(opts, s.pages[b]) && !Listed(s.meta, b)
  }

  /** No step makes the index forget a page with room. */
  lemma StepForgetsNothing(opts: Options, s: State, p: nat, b: nat)
    requires Sound(opts) && Ok(opts, s) && p < |s.procs|
    requires Runnable(s, p) && Forgotten(opts, Step(opts, s, p), b)
    ensures Forgotten(opts, s, b)
  {
    var s' := Step(opts, s, p);
    StepGrows(opts, s, p);
    assert ProcOk(opts, s.pages, s.meta, s.procs[p]);
    if s'.meta != s.meta { MetaForgetsNothing(opts, s, p, b); }
    if b < |s.pages| && !Fits(opts, s.pages[b]) { FullStaysFull(opts, s.pages[b], s'.pages[b]); }
  }

  lemma MetaForgetsNothing(opts: Options, s: State, p: nat, b: nat)
    requires Sound(opts) && Ok(opts, s) && p < |s.procs| && s.procs[p].Listing?
    requires Runnable(s, p) && Forgotten(opts, Step(opts, s, p), b) && Step(opts, s, p).meta != s.meta
    ensures b < |s.pages| && !Listed(s.meta, b)
  {
    var s' := Step(opts, s, p);
    StepGrows(opts, s, p);
    assert ProcOk(opts, s.pages, s.meta, s.procs[p]);
    var k := s.procs[p].nStart;
    if k == s.meta.nEnd {
      assert s'.meta.notFull[0] == |s.pages|;
      assert Listed(s'.meta, |s.pages|);
    } else {
      assert s'.meta == s.meta.(nStart := k);
      forall i | k <= i < s.meta.nEnd ensures Listed(s'.meta, s.meta.notFull[i]) { }
    }
    forall i | s.meta.nStart <= i < k ensures !Fits(opts, s'.pages[s.meta.notFull[i]]) {
      FullStaysFull(opts, s.pages[s.meta.notFull[i]], s'.pages[s.meta.notFull[i]]);
    }
  }

  /** Over a whole run: a page with room that is not listed was there from the start and not listed then either. */
  lemma {:induction false} RunForgetsNothing(opts: Options, s: State, who: seq<nat>, b: nat)
    requires Sound(opts) && Ok(opts, s) && Schedule(s, who)
    requires Forgotten(opts, Run(opts, s, who), b)
    ensures Forgotten(opts, s, b)
  {
    if who != [] {
      var n := |who| - 1;
      StepForgetsNothing(opts, Run(opts, s, who[..n]), who[n], b);
      RunForgetsNothing(opts, s, who[..n], b);
    }
  }

  // ----- scans -----

  /** A scan that had not begun in s counts at least the pages of s. */
  lemma {:induction false} ScanSees(opts: Options, s: State, who: seq<nat>, p: nat)
    requires Sound(opts) && Ok(opts, s) && Schedule(s, who) && p < |s.procs| && s.procs[p].Look?
    ensures match Run(opts, s, who).procs[p] {
      case Look(sign) => sign == s.procs[p].sign
      case Scanning(sign, before, _, _) => sign == s.procs[p].sign && Grown(s.pages, before)
      case Found(sign, before, _) => sign == s.procs[p].sign && Grown(s.pages, before)
      case _ => false }
  {
    if who != [] {
      var n := |who| - 1;
      ScanSees(opts, s, who[..n], p);
      RunGrows(opts, s, who[..n]);
      StepOk(opts, Run(opts, s, who[..n]), who[n]);
      LockKept(opts, Run(opts, s, who[..n]), who[n]);
    }
  }

  /** What has been on a page before a scan counted the pages is among its hits. */
  lemma FoundAll(opts: Options, s: State, p: nat, b: nat, t: Tuple)
    requires Ok(opts, s) && p < |s.procs| && s.procs[p].Found?
    requires 1 <= b < |s.procs[p].before| && t in s.procs[p].before[b] && Passes(t.sign, s.procs[p].sign)
    ensures t in s.procs[p].hits
  {
    assert ProcOk(opts, s.pages, s.meta, s.procs[p]);
  }

  /** Whatever else goes on, a scan that begins after an insert is done returns its tuple if that passes the test. */
  lemma LaterScanFinds(opts: Options, s: State, first: seq<nat>, later: seq<nat>, q: nat, t: Tuple, p: nat)
    requires Sound(opts) && Ok(opts, s) && Fresh(s) && s.pages[0] == []
    requires Schedule(s, first) && Schedule(s, later) && p < |s.procs| && q < |s.procs|
    requires var mid := Run(opts, s, first);
      mid.procs[q] == Done(t) && mid.procs[p].Look? && Passes(t.sign, mid.procs[p].sign)
    requires Run(opts, Run(opts, s, first), later).procs[p].Found?
    ensures t in Run(opts, Run(opts, s, first), later).procs[p].hits
  {
    var mid := Run(opts, s, first);
    RunConserves(opts, s, first);
    CompletedCount(s, mid, q, t);
    var b := OnSomePage(mid.pages, t);
    MetaPageEmpty(opts, s, first);
    ScanFinds(opts, mid, later, p, b, t);
  }

  lemma ScanFinds(opts: Options, s: State, who: seq<nat>, p: nat, b: nat, t: Tuple)
    requires Sound(opts) && Ok(opts, s) && Schedule(s, who) && p < |s.procs| && s.procs[p].Look?
    requires 1 <= b < |s.pages| && t in s.pages[b] && Passes(t.sign, s.procs[p].sign)
    ensures Run(opts, s, who).procs[p].Found? ==> t in Run(opts, s, who).procs[p].hits
  {
    var r := Run(opts, s, who);
    ScanSees(opts, s, who, p);
    if r.procs[p].Found? {
      assert s.pages[b] <= r.procs[p].before[b];
      FoundAll(opts, r, p, b, t);
    }
  }

  /** Nothing is ever added to the metapage. */
  lemma {:induction false} MetaPageEmpty(opts: Options, s: State, who: seq<nat>)
    requires Sound(opts) && Ok(opts, s) && Schedule(s, who) && s.pages[0] == []
    ensures Run(opts, s, who).pages[0] == []
  {
    if who != [] {
      var n := |who| - 1;
      MetaPageEmpty(opts, s, who[..n]);
      var r := Run(opts, s, who[..n]);
      assert ProcOk(opts, r.pages, r.meta, r.procs[who[n]]);
    }
  }
}
