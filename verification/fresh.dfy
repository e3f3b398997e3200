/** The fresh-mode spider of anime.py: it walks the ranking listing page by
    page, schedules one detail request per ranking row, and builds a record
    from each detail page. */
module FreshSpider {
  import opened Wrappers
  import opened Normalize
  import Selectors
  import Records
  import opened Callbacks

  /** The offset of the first listing page (`limit=0` in `start_urls`). */
  const StartOffset: int := 0
  /** How far the `limit` parameter advances per listing page. */
  const Step: int := 50
  /** The largest offset a next-page request is made for. */
  const Ceiling: int := 4400

  /** One `tr.ranking-list` row of a listing page: what its title, image,
      score and link selectors returned from `.get()`. */
  datatype Row = Row(title: Option<string>, imageUrl: Option<string>, score: Option<string>, href: Option<string>)

  /** The `meta` a row's detail request carries. */
  function RowContext(row: Row): Meta
  {
    ListingContext(row.title, row.imageUrl, row.score)
  }

  /** The pagination decision after the listing page at `offset`: the next
      offset when it is still within the ceiling, otherwise `None`. */
  function NextOffset(offset: int): (next: Option<int>)
    ensures next.Some? <==> offset + Step <= Ceiling
    ensures next.Some? ==> next.value == offset + Step
  {
    var n := offset + Step;
    if n <= Ceiling then Some(n) else None
  }

  /** Offset 4350 still leads to the page at 4400; the page at 4400 is the last. */
  lemma PaginationBoundary()
    ensures NextOffset(4350) == Some(4400)
    ensures NextOffset(4400) == None
  {
  }

  /** The listing offsets visited from `offset` when every page is fetched and
      processed: `offset` itself, then every further step up to the ceiling. */
  function Walk(offset: int): (offsets: seq<int>)
    ensures |offsets| >= 1 && offsets[0] == offset
    decreases Ceiling - offset
  {
    match NextOffset(offset)
    case None => [offset]
    case Some(n) => [offset] + Walk(n)
  }

  /** Offsets that step by `Step` from `offset` and stay within the ceiling
      after the first. */
  predicate OnGrid(offset: int, r: seq<int>)
  {
    && (forall k :: 0 <= k < |r| ==> r[k] == offset + Step * k)
    && (forall k :: 1 <= k < |r| ==> r[k] <= Ceiling)
  }

  /** Putting an offset within the ceiling in front of a run on the grid from
      the next offset gives a run on the grid from it. */
  lemma OnGridCons(offset: int, rest: seq<int>)
    requires offset + Step <= Ceiling
    requires OnGrid(offset + Step, rest)
    ensures OnGrid(offset, [offset] + rest)
  {
    var r := [offset] + rest;
    forall k | 1 <= k < |r|
      ensures r[k] == offset + Step * k && r[k] <= Ceiling
    {
      assert r[k] == rest[k - 1];
    }
  }

  /** The walk steps by `Step` from `offset`, stays within the ceiling after
      its first offset, and stops at the first offset from which one more
      step would pass the ceiling. */
  lemma {:induction false} WalkOnGrid(offset: int)
    ensures OnGrid(offset, Walk(offset))
    ensures Walk(offset)[|Walk(offset)| - 1] + Step > Ceiling
    decreases Ceiling - offset
  {
    var w := Walk(offset);
    if offset + Step <= Ceiling {
      var rest := Walk(offset + Step);
      WalkOnGrid(offset + Step);
      assert w == [offset] + rest;
      OnGridCons(offset, rest);
      assert w[|w| - 1] == rest[|rest| - 1];
    } else {
      assert w == [offset];
    }
  }

  /** From the start URL the spider visits exactly the offsets 0, 50, ...,
      4400: 89 listing pages. */
  lemma WalkFromStart()
    ensures Walk(StartOffset) == seq(89, k => Step * k)
  {
    WalkOnGrid(StartOffset);
    WalkLength(StartOffset);
  }

  /** From an offset on the step grid, the walk visits every grid offset up to
      and including the ceiling. */
  lemma WalkLength(offset: int)
    requires offset <= Ceiling && (Ceiling - offset) % Step == 0
    ensures |Walk(offset)| == (Ceiling - offset) / Step + 1
  {
    var w := Walk(offset);
    WalkOnGrid(offset);
    var last := |w| - 1;
    var q := (Ceiling - offset) / Step;
    assert Ceiling - offset == 50 * q;
    assert offset + 50 * last > 4350 by {
      assert w[last] == offset + 50 * last;
    }
    assert offset + 50 * last <= 4400 by {
      if last > 0 {
        assert w[last] == offset + 50 * last;
      }
    }
  }

  /** The detail requests the row loop yields (anime.py:34-45). Scrapy refuses
      to build a request whose URL is not a string, so a row without a link
      raises there and ends the callback. */
  function RowRequests(rows: seq<Row>): (e: Emission)
    ensures |e.outputs| <= |rows|
    ensures forall k :: 0 <= k < |e.outputs| ==>
              rows[k].href.Some? && e.outputs[k] == Follow(DetailRequest(rows[k].href.value, RowContext(rows[k])))
    ensures !e.raised <==> |e.outputs| == |rows|
    ensures e.raised ==> rows[|e.outputs|].href.None?
  {
    if rows == [] then Emission([], false)
    else
      match rows[0].href
      case None => Emission([], true)
      case Some(url) =>
        var rest := RowRequests(rows[1..]);
        Emission([Follow(DetailRequest(url, RowContext(rows[0])))] + rest.outputs, rest.raised)
  }

  /** The offsets of the listing requests among `outs`, in order. */
  function ListingOffsets(outs: seq<Output>): (offsets: seq<int>)
    ensures |offsets| <= |outs|
  {
    if outs == [] then []
    else
      (if outs[0].Follow? && outs[0].request.ListingRequest? then [outs[0].request.offset] else [])
      + ListingOffsets(outs[1..])
  }

  lemma {:induction false} ListingOffsetsAppend(a: seq<Output>, b: seq<Output>)
    ensures ListingOffsets(a + b) == ListingOffsets(a) + ListingOffsets(b)
  {
    if a != [] {
      assert (a + b)[1..] == a[1..] + b;
      ListingOffsetsAppend(a[1..], b);
    } else {
      assert a + b == b;
    }
  }

  lemma {:induction false} NoListingOffsetsInRowRequests(rows: seq<Row>)
    ensures ListingOffsets(RowRequests(rows).outputs) == []
    ensures Items(RowRequests(rows).outputs) == []
  {
    if rows != [] && rows[0].href.Some? {
      NoListingOffsetsInRowRequests(rows[1..]);
    }
  }

  /** Every ranking row of a listing page has a link. */
  predicate AllLinked(rows: seq<Row>)
  {
    forall k :: 0 <= k < |rows| ==> rows[k].href.Some?
  }

  /** The listing callback `parse` (anime.py:31-57): one detail request per
      ranking row in on-page order, then a request for the next page if the
      next offset is within the ceiling. */
  function Parse(rows: seq<Row>, offset: int): (e: Emission)
    ensures e.raised <==> !AllLinked(rows)
    ensures forall k :: 0 <= k < |e.outputs| && k < |rows| ==>
              rows[k].href.Some? && e.outputs[k] == Follow(DetailRequest(rows[k].href.value, RowContext(rows[k])))
    ensures !e.raised ==> |e.outputs| == |rows| + (if offset + Step <= Ceiling then 1 else 0)
    ensures e.raised ==> |e.outputs| < |rows| && rows[|e.outputs|].href.None?
    ensures ListingOffsets(e.outputs) == (if !e.raised && offset + Step <= Ceiling then [offset + Step] else [])
    ensures Items(e.outputs) == []
  {
    var e := RowRequests(rows);
    NoListingOffsetsInRowRequests(rows);
    if e.raised then e
    else
      match NextOffset(offset)
      case None => e
      case Some(n) =>
        var outs := e.outputs + [Follow(ListingRequest(n))];
        ListingOffsetsAppend(e.outputs, [Follow(ListingRequest(n))]);
        ItemsAppend(e.outputs, [Follow(ListingRequest(n))]);
        Emission(outs, false)
  }

  /** The detail callback `parse_anime_page` (anime.py:59-136): the record
      built from the page and the listing context, or nothing when extraction
      raises, which is caught and logged. It never schedules a request. */
  function ParseAnimePage(title: Option<string>, imageUrl: Option<string>, score: Option<string>,
                          body: Selectors.Body): (e: Emission)
    ensures !e.raised
    ensures Requests(e.outputs) == []
    ensures body.NotMarkup? ==> e.outputs == []
    ensures body.Markup? ==> |e.outputs| == 1 && e.outputs[0].Item?
    ensures body.Markup? ==> e.outputs[0].record == Records.FreshRecord(title, imageUrl, score, body.matches)
  {
    match body
    case NotMarkup => Emission([], false)
    case Markup(m) => Emission([Item(Records.FreshRecord(title, imageUrl, score, m))], false)
  }

  /** The listing pages as the fetch service delivers them: the ranking rows
      of the page at each offset, or `None` when that fetch fails. */
  type Site = int -> Option<seq<Row>>

  /** What happens once the listing page at `offset` has been requested: the
      listing offsets requested, in order, and everything the listing
      callbacks yielded. */
  datatype Trace = Trace(requested: seq<int>, outputs: seq<Output>)

  /** The chain of listing pages followed from `offset`. A failed fetch or a
      raising callback ends it; otherwise it follows the one next-page
      request the callback yielded. */
  function Crawl(site: Site, offset: int): (t: Trace)
    ensures |t.requested| >= 1 && t.requested[0] == offset
    decreases Ceiling - offset
  {
    match site(offset)
    case None => Trace([offset], [])
    case Some(rows) =>
      var e := Parse(rows, offset);
      if ListingOffsets(e.outputs) == [] then Trace([offset], e.outputs)
      else
        var next := Crawl(site, offset + Step);
        Trace([offset] + next.requested, e.outputs + next.outputs)
  }

  /** Every listing page the crawl requests after the first is one the
      callbacks asked for, in the order they asked, and nothing else is
      requested. */
  lemma {:induction false} CrawlFollowsItsOwnRequests(site: Site, offset: int)
    ensures ListingOffsets(Crawl(site, offset).outputs) == Crawl(site, offset).requested[1..]
    decreases Ceiling - offset
  {
    var t := Crawl(site, offset);
    match site(offset)
    case None =>
    case Some(rows) =>
      var e := Parse(rows, offset);
      if ListingOffsets(e.outputs) != [] {
        var next := Crawl(site, offset + Step);
        CrawlFollowsItsOwnRequests(site, offset + Step);
        ListingOffsetsAppend(e.outputs, next.outputs);
        assert t.requested[1..] == next.requested;
      }
  }

  /** A listing page that fails to download ends the chain with nothing
      yielded; one with a row lacking a link ends it with what its callback
      yielded before raising. */
  lemma CrawlEndsOnFailure(site: Site, offset: int)
    ensures site(offset).None? ==> Crawl(site, offset) == Trace([offset], [])
    ensures site(offset).Some? && !AllLinked(site(offset).value) ==>
              Crawl(site, offset) == Trace([offset], Parse(site(offset).value, offset).outputs)
  {
  }

  /** Every listing page can be fetched and every ranking row has a link. */
  ghost predicate Complete(site: Site)
  {
    forall o :: site(o).Some? && AllLinked(site(o).value)
  }

  /** One step of the crawl: the page at `offset` leads on to the next page
      exactly when it was fetched, every row had a link, and the next offset
      is within the ceiling. */
  lemma CrawlStep(site: Site, offset: int)
    ensures Crawl(site, offset).requested
         == if site(offset).Some? && AllLinked(site(offset).value) && offset + Step <= Ceiling
            then [offset] + Crawl(site, offset + Step).requested
            else [offset]
  {
  }

  lemma WalkStep(offset: int)
    ensures Walk(offset) == if offset + Step <= Ceiling then [offset] + Walk(offset + Step) else [offset]
  {
  }

  /** Whatever fails, the listing offsets requested from `offset` step by
      `Step` from `offset` and never pass the ceiling after the first. */
  lemma {:induction false} CrawlStaysOnGrid(site: Site, offset: int)
    ensures OnGrid(offset, Crawl(site, offset).requested)
    decreases Ceiling - offset
  {
    match site(offset)
    case None =>
    case Some(rows) =>
      if ListingOffsets(Parse(rows, offset).outputs) != [] {
        var rest := Crawl(site, offset + Step).requested;
        CrawlStaysOnGrid(site, offset + Step);
        OnGridCons(offset, rest);
      }
  }

  /** When nothing fails, the crawl visits exactly the offsets of `Walk`. */
  lemma {:induction false} CompleteCrawlFollowsWalk(site: Site, offset: int)
    requires Complete(site)
    ensures Crawl(site, offset).requested == Walk(offset)
    decreases Ceiling - offset
  {
    CrawlStep(site, offset);
    WalkStep(offset);
    assert site(offset).Some? && AllLinked(site(offset).value);
    if offset + Step <= Ceiling {
      CompleteCrawlFollowsWalk(site, offset + Step);
    }
  }

  /** From the start URL, whatever fails, the listing offsets requested are a
      prefix of 0, 50, ..., 4400: no page beyond the ceiling is ever
      requested. */
  lemma CrawlFromStart(site: Site)
    ensures forall k :: 0 <= k < |Crawl(site, StartOffset).requested| ==>
              Crawl(site, StartOffset).requested[k] == Step * k <= Ceiling
  {
    CrawlFromZero(site, StartOffset);
  }

  /** `CrawlFromStart` for an offset that is known to be 0 but is not the
      literal, so that `Crawl` is not unfolded while the proof runs. */
  lemma CrawlFromZero(site: Site, o: int)
    requires o == 0
    ensures forall k :: 0 <= k < |Crawl(site, o).requested| ==>
              Crawl(site, o).requested[k] == Step * k <= Ceiling
  {
    var r := Crawl(site, o).requested;
    CrawlStaysOnGrid(site, o);
    forall k | 0 <= k < |r|
      ensures r[k] == Step * k <= Ceiling
    {
      assert r[k] == o + Step * k;
    }
  }

  /** When nothing fails, all 89 listing pages are requested. */
  lemma CompleteCrawlFromStart(site: Site)
    requires Complete(site)
    ensures Crawl(site, StartOffset).requested == seq(89, k => Step * k)
  {
    WalkFromStart();
    CompleteCrawlFollowsWalk(site, StartOffset);
  }

  /** What the listing callbacks yield for the pages at `offsets`, in order;
      a page whose fetch failed yields nothing. */
  function PagesOutputs(site: Site, offsets: seq<int>): seq<Output>
  {
    if offsets == [] then []
    else
      (match site(offsets[0])
       case None => []
       case Some(rows) => Parse(rows, offsets[0]).outputs)
      + PagesOutputs(site, offsets[1..])
  }

  /** The crawl's output is the listing callbacks' outputs for the requested
      pages, one page after another. */
  lemma {:induction false} CrawlOutputsByPage(site: Site, offset: int)
    ensures Crawl(site, offset).outputs == PagesOutputs(site, Crawl(site, offset).requested)
    decreases Ceiling - offset
  {
    if site(offset).Some? && ListingOffsets(Parse(site(offset).value, offset).outputs) != [] {
      CrawlOutputsByPage(site, offset + Step);
      PagesOutputsCons(site, offset, Crawl(site, offset + Step).requested);
    } else {
      PagesOutputsCons(site, offset, []);
      assert [offset] + [] == [offset];
    }
  }

  lemma PagesOutputsCons(site: Site, offset: int, rest: seq<int>)
    ensures PagesOutputs(site, [offset] + rest)
         == (match site(offset) case None => [] case Some(rows) => Parse(rows, offset).outputs)
            + PagesOutputs(site, rest)
  {
    assert ([offset] + rest)[1..] == rest;
  }

  /** Each detail request carries its row's title, image and score, and the
      record built from the detail page holds them, cleaned, under `title`,
      `image_url` and `score`, the detail page's own score going to
      `score_detail`. */
  lemma ListingContextReachesRecord(rows: seq<Row>, offset: int, k: nat, m: map<Selectors.Rule, seq<string>>)
    requires k < |rows| && k < |Parse(rows, offset).outputs|
    ensures var request := Parse(rows, offset).outputs[k].request;
      && request.DetailRequest? && request.meta.ListingContext?
      && var r := ParseAnimePage(request.meta.title, request.meta.imageUrl, request.meta.score, Selectors.Markup(m)).outputs[0].record;
      && r.listing == Some(Records.Listing(Clean(Records.FromGet(rows[k].title)),
                                           Clean(Records.FromGet(rows[k].imageUrl)),
                                           Clean(Records.FromGet(rows[k].score))))
      && r.details[Selectors.Score] == Clean(Selectors.Select(m, Selectors.Score))
  {
  }

  /** A two-page crawl: starting one step below the ceiling with two linked
      rows per page, the spider requests the pages at 4350 and 4400 and yields
      four detail requests, each carrying its row's context, and no request
      for a page beyond 4400. */
  lemma TwoPageCrawl(row: Row)
    requires row.href.Some?
    ensures var t := Crawl(_ => Some([row, row]), 4350);
      && t.requested == [4350, 4400]
      && var detail := Follow(DetailRequest(row.href.value, ListingContext(row.title, row.imageUrl, row.score)));
      && t.outputs == [detail, detail, Follow(ListingRequest(4400)), detail, detail]
  {
    var site: Site := _ => Some([row, row]);
    var detail := Follow(DetailRequest(row.href.value, RowContext(row)));
    assert [row, row][1..] == [row];
    assert RowRequests([row]).outputs == [detail];
    assert RowRequests([row, row]) == Emission([detail, detail], false);
    var first := Parse([row, row], 4350);
    assert first.outputs == [detail, detail, Follow(ListingRequest(4400))];
    var second := Parse([row, row], 4400);
    assert second.outputs == [detail, detail];
    var t2 := Crawl(site, 4400);
    assert t2 == Trace([4400], second.outputs);
    var t := Crawl(site, 4350);
    assert t == Trace([4350] + t2.requested, first.outputs + t2.outputs);
    assert t.outputs == [detail, detail, Follow(ListingRequest(4400)), detail, detail];
  }
}
