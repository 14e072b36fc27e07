/** Concurrent inserts and scans, as steps between lock acquisitions. */
module BloomInsert {
  import opened BloomSign
  import opened BloomRows

  type Page = seq<Tuple>

  // ----- one page -----

  /** A page of 8192 bytes without its header and its trailer. */
  const PAGE_BYTES: nat := 8192 - 24 - 8

  function SizeOfTuple(opts: Options): nat {
    6 + 2 * opts.length
  }

  predicate WithinPage(opts: Options, page: Page) {
    |page| * SizeOfTuple(opts) <= PAGE_BYTES
  }

  predicate Fits(opts: Options, page: Page) {
    PAGE_BYTES - |page| * SizeOfTuple(opts) >= SizeOfTuple(opts)
  }

  /** A tuple is added exactly if the page stays within its bytes. */
  lemma FitsExactly(opts: Options, page: Page, t: Tuple)
    ensures Fits(opts, page) <==> WithinPage(opts, page + [t])
  {
    assert |page + [t]| * SizeOfTuple(opts) == |page| * SizeOfTuple(opts) + SizeOfTuple(opts);
  }

  lemma EmptyPageFits(opts: Options)
    requires Sound(opts)
    ensures Fits(opts, [])
  {
  }

  /** A page that is full stays full. */
  lemma FullStaysFull(opts: Options, page: Page, page': Page)
    requires page <= page' && !Fits(opts, page)
    ensures !Fits(opts, page')
  {
    assert |page| * SizeOfTuple(opts) <= |page'| * SizeOfTuple(opts);
  }

  // ----- the index and its users -----

  /** The list of pages to try: those from nStart up to nEnd. */
  datatype Meta = Meta(nStart: nat, nEnd: nat, notFull: seq<nat>)

  datatype Tried = None | Block(blkno: nat)

  /**
    * An insert that has not read the metapage yet, that is about to try the page it found there, that waits for
    * the exclusive lock, that holds it, that is done; a scan that has not begun, that has the pages up to blkno
    * behind it, that is done. What a scan calls before is the index when it counted the pages.
    */
  datatype Proc =
    | Begin(t: Tuple)
    | First(t: Tuple, blkno: nat)
    | Retry(t: Tuple, tried: Tried)
    | Listing(t: Tuple, nStart: nat)
    | Done(t: Tuple)
    | Look(sign: Sign)
    | Scanning(sign: Sign, before: seq<Page>, blkno: nat, hits: seq<Tuple>)
    | Found(sign: Sign, before: seq<Page>, hits: seq<Tuple>)

  /** Page 0 is the metapage and holds no tuples. */
  datatype State = State(pages: seq<Page>, meta: Meta, procs: seq<Proc>)

  ghost function Matching(page: Page, sign: Sign): seq<Tuple> {
    if page == [] then []
    else Matching(page[..|page| - 1], sign) + (if Passes(page[|page| - 1].sign, sign) then [page[|page| - 1]] else [])
  }

  /** Someone holds the exclusive lock on the metapage. */
  ghost predicate MetaLocked(s: State) {
    exists q :: 0 <= q < |s.procs| && s.procs[q].Listing?
  }

  predicate MetaOk(pages: seq<Page>, m: Meta) {
    && m.nStart <= m.nEnd <= |m.notFull| && |m.notFull| >= 1 && |pages| >= 1
    && forall i :: 0 <= i < m.nEnd ==> 1 <= m.notFull[i] < |pages|
  }

  function AddTo(pages: seq<Page>, b: nat, t: Tuple): seq<Page>
    requires b < |pages|
  {
    pages[b := pages[b] + [t]]
  }

  predicate Runnable(s: State, p: nat) {
    MetaOk(s.pages, s.meta) && p < |s.procs| && (s.procs[p].First? ==> s.procs[p].blkno < |s.pages|)
    && (s.procs[p].Scanning? ==> |s.procs[p].before| <= |s.pages|)
  }

  /** What p does next; waiting for a lock is doing nothing. */
  ghost function Step(opts: Options, s: State, p: nat): State
    requires Runnable(s, p)
  {
    var m := s.meta;
    match s.procs[p]
    case Begin(t) =>
      if MetaLocked(s) then s
      else if m.nEnd > m.nStart then s.(procs := s.procs[p := First(t, m.notFull[m.nStart])])
      else s.(procs := s.procs[p := Retry(t, None)])
    case First(t, b) =>
      if Fits(opts, s.pages[b]) then s.(pages := AddTo(s.pages, b, t), procs := s.procs[p := Done(t)])
      else s.(procs := s.procs[p := Retry(t, Block(b))])
    case Retry(t, tried) =>
      if MetaLocked(s) then s
      else
        var skip := m.nStart < m.nEnd && tried == Block(m.notFull[m.nStart]);
        s.(procs := s.procs[p := Listing(t, if skip then m.nStart + 1 else m.nStart)])
    case Listing(t, k) =>
      if k < m.nEnd then
        var b := m.notFull[k];
        if Fits(opts, s.pages[b]) then
          State(AddTo(s.pages, b, t), m.(nStart := k), s.procs[p := Done(t)])
        else s.(procs := s.procs[p := Listing(t, k + 1)])
      else
        State(s.pages + [[t]], Meta(0, 1, m.notFull[0 := |s.pages|]), s.procs[p := Done(t)])
    case Look(sign) => s.(procs := s.procs[p := Scanning(sign, s.pages, 1, [])])
    case Scanning(sign, before, b, hits) =>
      if b < |before| then s.(procs := s.procs[p := Scanning(sign, before, b + 1, hits + Matching(s.pages[b], sign))])
      else s.(procs := s.procs[p := Found(sign, before, hits)])
    case Done(_) => s
    case Found(_, _, _) => s
  }

  // ----- what every step keeps -----

  /** Pages only grow at their ends, and new ones come after the old ones. */
  predicate Grown(pages: seq<Page>, pages': seq<Page>) {
    |pages| <= |pages'| && forall b :: 0 <= b < |pages| ==> pages[b] <= pages'[b]
  }

  ghost predicate InIndex(pages: seq<Page>, t: Tuple) {
    exists b :: 0 <= b < |pages| && t in pages[b]
  }

  /** The matches on the first n pages of before have been found. */
  ghost predicate Caught(sign: Sign, before: seq<Page>, n: nat, hits: seq<Tuple>) {
    forall b, t :: 1 <= b < n && b < |before| && t in before[b] && Passes(t.sign, sign) ==> t in hits
  }

  ghost predicate HitsOk(pages: seq<Page>, sign: Sign, hits: seq<Tuple>) {
    forall t :: t in hits ==> Passes(t.sign, sign) && InIndex(pages, t)
  }

  ghost predicate ProcOk(opts: Options, pages: seq<Page>, m: Meta, proc: Proc)
    requires MetaOk(pages, m)
  {
    match proc
    case Begin(_) => true
    case First(_, b) => 1 <= b < |pages|
    case Retry(_, tried) => tried.Block? ==> 1 <= tried.blkno < |pages| && !Fits(opts, pages[tried.blkno])
    case Listing(_, k) => m.nStart <= k <= m.nEnd && forall i :: m.nStart <= i < k ==> !Fits(opts, pages[m.notFull[i]])
    case Done(_) => true
    case Look(_) => true
    case Scanning(sign, before, b, hits) =>
      1 <= b && Grown(before, pages) && Caught(sign, before, b, hits) && HitsOk(pages, sign, hits)
    case Found(sign, before, hits) =>
      Grown(before, pages) && Caught(sign, before, |before|, hits) && HitsOk(pages, sign, hits)
  }

  ghost predicate Ok(opts: Options, s: State) {
    && MetaOk(s.pages, s.meta)
    && (forall b :: 0 <= b < |s.pages| ==> WithinPage(opts, s.pages[b]))
    && (forall p :: 0 <= p < |s.procs| ==> ProcOk(opts, s.pages, s.meta, s.procs[p]))
    && (forall p, q ::
      0 <= p < |s.procs| && 0 <= q < |s.procs| && s.procs[p].Listing? && s.procs[q].Listing? ==> p == q)
  }

  /** Others do not mind that pages grow, nor that the list changes while they do not hold its lock. */
  lemma OthersStay(opts: Options, pages: seq<Page>, pages': seq<Page>, m: Meta, m': Meta, proc: Proc)
    requires MetaOk(pages, m) && MetaOk(pages', m') && ProcOk(opts, pages, m, proc) && Grown(pages, pages')
    requires proc.Listing? ==> m' == m
    ensures ProcOk(opts, pages', m', proc)
  {
    match proc
    case Retry(_, tried) =>
      if tried.Block? { FullStaysFull(opts, pages[tried.blkno], pages'[tried.blkno]); }
    case Listing(_, k) =>
      forall i | m.nStart <= i < k ensures !Fits(opts, pages'[m.notFull[i]]) {
        FullStaysFull(opts, pages[m.notFull[i]], pages'[m.notFull[i]]);
      }
    case Scanning(sign, before, b, hits) => HitsStay(pages, pages', sign, hits); GrownTwice(before, pages, pages');
    case Found(sign, before, hits) => HitsStay(pages, pages', sign, hits); GrownTwice(before, pages, pages');
    case _ =>
  }

  lemma HitsStay(pages: seq<Page>, pages': seq<Page>, sign: Sign, hits: seq<Tuple>)
    requires HitsOk(pages, sign, hits) && Grown(pages, pages')
    ensures HitsOk(pages', sign, hits)
  {
    forall t | t in hits ensures InIndex(pages', t) {
      var b :| 0 <= b < |pages| && t in pages[b];
      assert t in pages'[b];
    }
  }

  lemma GrownTwice(a: seq<Page>, b: seq<Page>, c: seq<Page>)
    requires Grown(a, b) && Grown(b, c)
    ensures Grown(a, c)
  {
    forall i | 0 <= i < |a| ensures a[i] <= c[i] { assert a[i] <= b[i] <= c[i]; }
  }

  lemma {:induction false} MatchingMeans(page: Page, sign: Sign, t: Tuple)
    ensures t in Matching(page, sign) <==> t in page && Passes(t.sign, sign)
  {
    if page != [] {
      var n := |page| - 1;
      MatchingMeans(page[..n], sign, t);
      assert page == page[..n] + [page[n]];
    }
  }

  /** A scan's next page. */
  lemma ScanOne(pages: seq<Page>, sign: Sign, before: seq<Page>, b: nat, hits: seq<Tuple>)
    requires 1 <= b < |before| && Grown(before, pages) && Caught(sign, before, b, hits) && HitsOk(pages, sign, hits)
    ensures Caught(sign, before, b + 1, hits + Matching(pages[b], sign))
    ensures HitsOk(pages, sign, hits + Matching(pages[b], sign))
  {
    var more := Matching(pages[b], sign);
    forall t ensures t in more <==> t in pages[b] && Passes(t.sign, sign) { MatchingMeans(pages[b], sign, t); }
    forall c, t | 1 <= c < b + 1 && c < |before| && t in before[c] && Passes(t.sign, sign) ensures t in hits + more {
      if c == b { assert before[b] <= pages[b]; }
    }
  }

  lemma GrownByOne(pages: seq<Page>, b: nat, t: Tuple)
    requires b < |pages|
    ensures Grown(pages, AddTo(pages, b, t)) && Grown(pages, pages + [[t]]) && Grown(pages, pages)
  {
  }

  /** How a step changes the pages. */
  lemma StepGrows(opts: Options, s: State, p: nat)
    requires Sound(opts) && Ok(opts, s) && p < |s.procs|
    ensures Runnable(s, p)
    ensures var s' := Step(opts, s, p);
      && Grown(s.pages, s'.pages) && MetaOk(s'.pages, s'.meta)
      && (forall b :: 0 <= b < |s'.pages| ==> WithinPage(opts, s'.pages[b]))
      && (s'.meta != s.meta ==> s.procs[p].Listing?)
  {
    assert ProcOk(opts, s.pages, s.meta, s.procs[p]);
    GrownByOne(s.pages, 0, Tuple(0, []));
    match s.procs[p]
    case First(t, b) => GrownByOne(s.pages, b, t); FitsExactly(opts, s.pages[b], t);
    case Listing(t, k) =>
      if k < s.meta.nEnd {
        GrownByOne(s.pages, s.meta.notFull[k], t);
        FitsExactly(opts, s.pages[s.meta.notFull[k]], t);
      } else {
        GrownByOne(s.pages, 0, t);
        EmptyPageFits(opts);
        FitsExactly(opts, [], t);
      }
    case _ =>
  }

  /** The one that moves is well again afterwards. */
  lemma MoverOk(opts: Options, s: State, p: nat)
    requires Sound(opts) && Ok(opts, s) && p < |s.procs|
    ensures Runnable(s, p)
    ensures var s' := Step(opts, s, p); MetaOk(s'.pages, s'.meta) && ProcOk(opts, s'.pages, s'.meta, s'.procs[p])
  {
    StepGrows(opts, s, p);
    assert ProcOk(opts, s.pages, s.meta, s.procs[p]);
    match s.procs[p]
    case Scanning(sign, before, b, hits) => if b < |before| { ScanOne(s.pages, sign, before, b, hits); }
    case _ =>
  }

  lemma LockKept(opts: Options, s: State, p: nat)
    requires Ok(opts, s) && Runnable(s, p)
    ensures var s' := Step(opts, s, p);
      && |s'.procs| == |s.procs| && (forall q :: 0 <= q < |s.procs| && q != p ==> s'.procs[q] == s.procs[q])
      && forall q, r ::
        0 <= q < |s.procs| && 0 <= r < |s.procs| && s'.procs[q].Listing? && s'.procs[r].Listing? ==> q == r
  {
  }

  /**
   Every step keeps everything: page sizes, the list's bounds, the lock, what each insert and each scan has
   established.
   */
  lemma StepOk(opts: Options, s: State, p: nat)
    requires Sound(opts) && Ok(opts, s) && p < |s.procs|
    ensures Runnable(s, p) && Ok(opts, Step(opts, s, p))
  {
    StepGrows(opts, s, p);
    MoverOk(opts, s, p);
    LockKept(opts, s, p);
    var s' := Step(opts, s, p);
    forall q | 0 <= q < |s'.procs| ensures ProcOk(opts, s'.pages, s'.meta, s'.procs[q]) {
      if q != p {
        assert ProcOk(opts, s.pages, s.meta, s.procs[q]);
        OthersStay(opts, s.pages, s'.pages, s.meta, s'.meta, s.procs[q]);
      }
    }
  }

  /** A page is full. */
  predicate Full(opts: Options, s: State, i: int)
    requires MetaOk(s.pages, s.meta) && 0 <= i < s.meta.nEnd
  {
    !Fits(opts, s.pages[s.meta.notFull[i]])
  }

  /**
   Where a step puts a tuple: on a page with room, which for the holder of the lock is the first listed
   one; a new page is made exactly by one that has the list behind it, and then all listed pages are full.
   */
  lemma StepPlaces(opts: Options, s: State, p: nat)
    requires Sound(opts) && Ok(opts, s) && p < |s.procs|
    ensures Runnable(s, p)
    ensures var s', m, proc := Step(opts, s, p), s.meta, s.procs[p];
      && (|s'.pages| > |s.pages| <==> proc.Listing? && proc.nStart >= m.nEnd)
      && (|s'.pages| > |s.pages| ==> forall i :: m.nStart <= i < m.nEnd ==> Full(opts, s, i))
      && (forall b :: 0 <= b < |s.pages| && s'.pages[b] != s.pages[b] ==> Fits(opts, s.pages[b]))
      && (proc.Listing? && proc.nStart < m.nEnd && s'.pages != s.pages ==>
        s'.pages == AddTo(s.pages, m.notFull[proc.nStart], proc.t) &&
        forall i :: m.nStart <= i < proc.nStart ==> Full(opts, s, i))
  {
    StepGrows(opts, s, p);
    assert ProcOk(opts, s.pages, s.meta, s.procs[p]);
  }
}
