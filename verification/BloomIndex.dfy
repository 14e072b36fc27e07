/** The insert and the scan as the code writes them down, each without others around it. */
module BloomIndex {
  import opened BloomSign
  import opened BloomRows
  import opened BloomInsert
  import opened BloomRuns

  /** The only user moves n times. */
  ghost function Alone(opts: Options, s: State, n: nat): State {
    if n == 0 then s
    else
      var r := Alone(opts, s, n - 1);
      if Runnable(r, 0) then Step(opts, r, 0) else r
  }

  lemma {:induction false} AloneIsRun(opts: Options, s: State, n: nat)
    requires Sound(opts) && Ok(opts, s) && |s.procs| == 1
    ensures Schedule(s, seq(n, i => 0)) && Alone(opts, s, n) == Run(opts, s, seq(n, i => 0))
  {
    if n > 0 {
      AloneIsRun(opts, s, n - 1);
      var who := seq(n, i => 0);
      assert who[..n - 1] == seq(n - 1, i => 0);
      StepOk(opts, Run(opts, s, who[..n - 1]), 0);
    }
  }

  /** An insert's moves, one kind at a time. */
  lemma RetryMoves(opts: Options, s: State, n: nat, pages: seq<Page>, m: Meta, t: Tuple, tried: Tried)
    requires MetaOk(pages, m) && Alone(opts, s, n) == State(pages, m, [Retry(t, tried)])
    ensures var k := if m.nStart < m.nEnd && tried == Block(m.notFull[m.nStart]) then m.nStart + 1 else m.nStart;
      Alone(opts, s, n + 1) == State(pages, m, [Listing(t, k)])
  {
    var r := Alone(opts, s, n);
    assert Runnable(r, 0) && !MetaLocked(r);
  }

  lemma ListingMoves(opts: Options, s: State, n: nat, pages: seq<Page>, m: Meta, t: Tuple, k: nat)
    requires MetaOk(pages, m) && Alone(opts, s, n) == State(pages, m, [Listing(t, k)]) && k < m.nEnd
    ensures Alone(opts, s, n + 1) ==
      if Fits(opts, pages[m.notFull[k]]) then State(AddTo(pages, m.notFull[k], t), m.(nStart := k), [Done(t)])
      else State(pages, m, [Listing(t, k + 1)])
  {
    assert Runnable(Alone(opts, s, n), 0);
  }

  lemma NewPageMoves(opts: Options, s: State, n: nat, pages: seq<Page>, m: Meta, t: Tuple, k: nat)
    requires MetaOk(pages, m) && Alone(opts, s, n) == State(pages, m, [Listing(t, k)]) && k >= m.nEnd
    ensures Alone(opts, s, n + 1) == State(pages + [[t]], Meta(0, 1, m.notFull[0 := |pages|]), [Done(t)])
  {
    assert Runnable(Alone(opts, s, n), 0);
  }

  class Index {
    const opts: Options
    var pages: seq<Page>
    var nStart: nat
    var nEnd: nat
    var notFull: seq<nat>

    ghost predicate Valid()
      reads this
    {
      Sound(opts) && Ok(opts, With([]))
    }

    /** The state of the index with these users. */
    ghost function With(procs: seq<Proc>): State
      reads this
    {
      State(pages, Meta(nStart, nEnd, notFull), procs)
    }

    /** A metapage with an empty list, and no other page. */
    constructor (opts: Options, room: nat)
      requires Sound(opts) && room > 0
      ensures Valid() && pages == [[]] && nStart == nEnd == 0 && this.opts == opts
    {
      this.opts := opts;
      pages := [[]];
      nStart, nEnd := 0, 0;
      notFull := seq(room, i => 0);
    }

    method PageAddItem(b: nat, t: Tuple) returns (ok: bool)
      requires b < |pages|
      modifies this`pages
      ensures ok <==> old(Fits(opts, pages[b]))
      ensures pages == if ok then AddTo(old(pages), b, t) else old(pages)
    {
      var page := pages[b];
      if PAGE_BYTES - |page| * SizeOfTuple(opts) < SizeOfTuple(opts) { return false; }
      pages := pages[b := page + [t]];
      ok := true;
    }

    /** An insert alone is a run of the steps above, of n moves. */
    method Insert(t: Tuple) returns (ghost n: nat)
      requires Valid()
      modifies this`pages, this`nStart, this`nEnd, this`notFull
      ensures Valid()
      ensures With([Done(t)]) == Alone(opts, old(With([Begin(t)])), n)
      ensures Contents(pages) == old(Contents(pages)) + multiset{t}
    {
      ghost var was := With([Begin(t)]);
      Bounds();
      n := InsertSteps(t);
      assert Ok(opts, was);
      Finished(was, t, n);
    }

    /** What the code relies on when it looks at the list. */
    ghost predicate InBounds()
      reads this
    {
      Sound(opts) && MetaOk(pages, Meta(nStart, nEnd, notFull))
    }

    lemma Bounds()
      requires Valid()
      ensures InBounds()
    {
    }

    method InsertSteps(t: Tuple) returns (ghost n: nat)
      requires InBounds()
      modifies this`pages, this`nStart, this`nEnd, this`notFull
      ensures With([Done(t)]) == Alone(opts, old(With([Begin(t)])), n)
    {
      ghost var was := With([Begin(t)]);
      var done, tried;
      done, tried, n := TryFirst(t);
      if !done {
        var k := WhereToGoOn(t, tried, was, n);
        n := TryListed(t, k, was, n + 1);
      }
    }

    /** Where to go on in the list: after the page that has been tried, if the list still begins with it. */
    method WhereToGoOn(t: Tuple, tried: Tried, ghost was: State, ghost n: nat) returns (k: nat)
      requires InBounds() && With([Retry(t, tried)]) == Alone(opts, was, n)
      ensures With([Listing(t, k)]) == Alone(opts, was, n + 1)
    {
      RetryMoves(opts, was, n, pages, Meta(nStart, nEnd, notFull), t, tried);
      k := nStart;
      if k < nEnd && tried == Block(notFull[k]) { k := k + 1; }
    }

    /** The first page of the list, tried while the metapage is not locked. */
    method TryFirst(t: Tuple) returns (done: bool, tried: Tried, ghost n: nat)
      requires InBounds()
      modifies this`pages
      ensures InBounds()
      ensures With([if done then Done(t) else Retry(t, tried)]) == Alone(opts, old(With([Begin(t)])), n)
    {
      ghost var was := With([Begin(t)]);
      done, tried, n := false, None, 1;
      if nEnd > nStart {
        var blkno := notFull[nStart];
        assert With([First(t, blkno)]) == Alone(opts, was, n);
        done := PageAddItem(blkno, t);
        n := 2;
        tried := Block(blkno);
      }
    }

    /** The loop over the list, and a new page after it. */
    method TryListed(t: Tuple, start: nat, ghost was: State, ghost m: nat) returns (ghost n: nat)
      requires InBounds() && With([Listing(t, start)]) == Alone(opts, was, m)
      modifies this`pages, this`nStart, this`nEnd, this`notFull
      ensures With([Done(t)]) == Alone(opts, was, n)
    {
      var k: nat := start;
      n := m;
      while k < nEnd
        invariant InBounds() && With([Listing(t, k)]) == Alone(opts, was, n)
        invariant nEnd == old(nEnd)
      {
        var done := TryOne(t, k, was, n);
        n := n + 1;
        if done { return; }
        k := k + 1;
      }
      LastMove(t, k, was, n);
      n := n + 1;
    }

    method LastMove(t: Tuple, ghost k: nat, ghost was: State, ghost n: nat)
      requires InBounds() && With([Listing(t, k)]) == Alone(opts, was, n) && k >= nEnd
      modifies this`pages, this`nStart, this`nEnd, this`notFull
      ensures With([Done(t)]) == Alone(opts, was, n + 1)
    {
      NewPageMoves(opts, was, n, pages, Meta(nStart, nEnd, notFull), t, k);
      NewPage(t);
    }

    /** One page of the list; the list begins with it from now on if it takes the tuple. */
    method TryOne(t: Tuple, k: nat, ghost was: State, ghost n: nat) returns (done: bool)
      requires InBounds() && With([Listing(t, k)]) == Alone(opts, was, n) && k < nEnd
      modifies this`pages, this`nStart
      ensures InBounds() && With([if done then Done(t) else Listing(t, k + 1)]) == Alone(opts, was, n + 1)
    {
      ListingMoves(opts, was, n, pages, Meta(nStart, nEnd, notFull), t, k);
      done := PageAddItem(notFull[k], t);
      if done { nStart := k; }
    }

    /** A page of its own, which is the whole list from then on. */
    method NewPage(t: Tuple)
      requires InBounds()
      modifies this`pages, this`nStart, this`nEnd, this`notFull
      ensures pages == old(pages) + [[t]]
      ensures nStart == 0 && nEnd == 1 && notFull == old(notFull)[0 := |old(pages)|]
    {
      notFull := notFull[0 := |pages|];
      pages := pages + [[]];
      EmptyPageFits(opts);
      var ok := PageAddItem(|pages| - 1, t);
      nStart, nEnd := 0, 1;
      assert [] + [t] == [t];
    }

    /** The index after a finished run. */
    lemma Finished(was: State, t: Tuple, n: nat)
      requires Sound(opts) && Ok(opts, was) && was.procs == [Begin(t)] && With([Done(t)]) == Alone(opts, was, n)
      ensures Valid() && Contents(pages) == Contents(was.pages) + multiset{t}
    {
      AloneIsRun(opts, was, n);
      RunConserves(opts, was, seq(n, i => 0));
      assert Inserted([Begin(t)]) == multiset{} by { NoneInserted([Begin(t)]); }
      assert Inserted([Done(t)]) == multiset{t} by { assert [Done(t)][..0] == []; }
    }

    /** All pages after the metapage, all tuples of each. */
    method GetBitmap(sign: Sign) returns (hits: seq<Tuple>, ntids: nat)
      requires Valid() && |sign| == opts.length && Words(sign)
      requires forall b, i ::
        1 <= b < |pages| && 0 <= i < |pages[b]| ==> |pages[b][i].sign| == opts.length && Words(pages[b][i].sign)
      ensures hits == AllMatching(pages, |pages|, sign) && ntids == |hits|
      ensures forall t :: t in hits <==> exists b :: 1 <= b < |pages| && t in pages[b] && Passes(t.sign, sign)
    {
      hits, ntids := [], 0;
      var blkno := 1;
      while blkno < |pages|
        invariant 1 <= blkno <= |pages| && ntids == |hits|
        invariant hits == AllMatching(pages, blkno, sign)
      {
        var more := OnPage(pages[blkno], sign);
        hits, ntids := hits + more, ntids + |more|;
        blkno := blkno + 1;
      }
      forall t ensures t in hits <==> exists b :: 1 <= b < |pages| && t in pages[b] && Passes(t.sign, sign) {
        AllMatchingMeans(pages, |pages|, sign, t);
      }
    }
  }

  /** The matching tuples of the pages from 1 up to n, in order, each as often as it is there. */
  ghost function AllMatching(pages: seq<Page>, n: nat, sign: Sign): seq<Tuple>
    requires n <= |pages|
  {
    if n <= 1 then [] else AllMatching(pages, n - 1, sign) + Matching(pages[n - 1], sign)
  }

  lemma {:induction false} AllMatchingMeans(pages: seq<Page>, n: nat, sign: Sign, t: Tuple)
    requires n <= |pages|
    ensures t in AllMatching(pages, n, sign) <==> exists b :: 1 <= b < n && t in pages[b] && Passes(t.sign, sign)
  {
    if n > 1 {
      AllMatchingMeans(pages, n - 1, sign, t);
      MatchingMeans(pages[n - 1], sign, t);
    }
  }

  method OnPage(page: Page, sign: Sign) returns (hits: seq<Tuple>)
    requires Words(sign) && forall i :: 0 <= i < |page| ==> |page[i].sign| == |sign| && Words(page[i].sign)
    ensures hits == Matching(page, sign)
  {
    hits := [];
    for offset := 0 to |page|
      invariant hits == Matching(page[..offset], sign)
    {
      var res := CheckSignature(page[offset].sign, sign);
      assert page[..offset + 1][..offset] == page[..offset];
      if res { hits := hits + [page[offset]]; }
    }
    assert page[..|page|] == page;
  }

  /** From rows to results: a row inserted before a scan began is returned if it has the values of all scan keys. */
  lemma InsertedRowIsFound(opts: Options, hash: (nat, int) -> Hash, s: State, first: seq<nat>, later: seq<nat>,
                           q: nat, t: Tuple, values: seq<Datum>, p: nat, keys: seq<ScanKey>)
    requires Sound(opts) && Ok(opts, s) && Fresh(s) && s.pages[0] == []
    requires Schedule(s, first) && Schedule(s, later) && p < |s.procs| && q < |s.procs|
    requires Row(values) && Keys(keys) && Satisfies(values, keys) && SignsRow(opts, hash, values, t.sign)
    requires var mid := Run(opts, s, first);
      mid.procs[q] == Done(t) && mid.procs[p].Look? && SignsKeys(opts, hash, keys, mid.procs[p].sign)
    requires Run(opts, Run(opts, s, first), later).procs[p].Found?
    ensures t in Run(opts, Run(opts, s, first), later).procs[p].hits
  {
    var mid := Run(opts, s, first);
    NoFalseNegative(opts, hash, values, keys, t.sign, mid.procs[p].sign);
    LaterScanFinds(opts, s, first, later, q, t, p);
  }
}
