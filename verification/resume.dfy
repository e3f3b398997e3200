/** The resume-mode spider of detail_data.py: it reads back the list of
    entries an earlier crawl saved and visits their detail pages one at a
    time, each callback scheduling the request for the next entry. */
module ResumeSpider {
  import opened Wrappers
  import Selectors
  import Records
  import opened Callbacks

  /** One saved entry. `None` stands for an entry whose `url` key is missing
      or whose value is not a string: looking it up or building a request
      from it raises. */
  datatype Entry = Entry(url: Option<string>)

  /** The downloaded detail page for each URL, or `None` when the download
      fails and Scrapy never calls the callback. */
  type Fetch = string -> Option<Selectors.Body>

  /** The request for entry `next`, when `next` is still in range
      (detail_data.py:19-21 with `next` = 0, and 114-117 with
      `next` = index + 1): nothing past the end, a raise for an entry without
      a usable URL. */
  function Advance(data: seq<Entry>, next: nat): (e: Emission)
    ensures |e.outputs| <= 1 && Items(e.outputs) == []
    ensures e.outputs != [] <==> next < |data| && data[next].url.Some?
    ensures e.outputs != [] ==> e.outputs[0] == Follow(DetailRequest(data[next].url.value, IndexContext(next)))
    ensures e.raised <==> next < |data| && data[next].url.None?
  {
    if next < |data| then
      match data[next].url
      case None => Emission([], true)
      case Some(url) => Emission([Follow(DetailRequest(url, IndexContext(next)))], false)
    else Emission([], false)
  }

  /** `start_requests` (detail_data.py:13-21): nothing for an empty list,
      otherwise the request for entry 0 carrying index 0. */
  function StartRequests(data: seq<Entry>): (e: Emission)
    ensures data == [] ==> e == Emission([], false)
    ensures |Requests(e.outputs)| <= 1 && Items(e.outputs) == []
    ensures Requests(e.outputs) != [] <==> data != [] && data[0].url.Some?
    ensures Requests(e.outputs) != [] ==> Requests(e.outputs)[0] == DetailRequest(data[0].url.value, IndexContext(0))
  {
    Advance(data, 0)
  }

  /** The detail callback `parse_anime_page` (detail_data.py:35-117): the
      record built from the page, then the request for the next entry if
      there is one. There is no exception handling: a page the selectors
      cannot read raises before anything is yielded, and a next entry
      without a URL raises after the record. */
  function ParseAnimePage(data: seq<Entry>, index: nat, body: Selectors.Body): (e: Emission)
    ensures body.NotMarkup? ==> e == Emission([], true)
    ensures body.Markup? ==> |e.outputs| >= 1 && e.outputs[0].Item?
    ensures forall k :: 0 <= k < |e.outputs| && e.outputs[k].Follow? ==> k == 1 == |e.outputs| - 1
    ensures body.Markup? ==>
              (Requests(e.outputs) != [] <==> index + 1 < |data| && data[index + 1].url.Some?)
    ensures Requests(e.outputs) != [] ==>
              && index + 1 < |data| && data[index + 1].url.Some?
              && Requests(e.outputs) == [DetailRequest(data[index + 1].url.value, IndexContext(index + 1))]
    ensures e.raised <==> body.NotMarkup? || (index + 1 < |data| && data[index + 1].url.None?)
  {
    match body
    case NotMarkup => Emission([], true)
    case Markup(m) =>
      var item := [Item(Records.ResumeRecord(m))];
      var next := Advance(data, index + 1);
      RequestsAppend(item, next.outputs);
      Emission(item + next.outputs, next.raised)
  }

  /** The one record `parse_anime_page` yields is the one built from the
      page, and it comes first. */
  lemma ParseAnimePageRecord(data: seq<Entry>, index: nat, body: Selectors.Body)
    ensures var e := ParseAnimePage(data, index, body);
      && Items(e.outputs) == (if body.Markup? then [Records.ResumeRecord(body.matches)] else [])
      && (body.Markup? ==> e.outputs[0] == Item(Records.ResumeRecord(body.matches)))
  {
    if body.Markup? {
      var item := [Item(Records.ResumeRecord(body.matches))];
      var next := Advance(data, index + 1);
      ItemsAppend(item, next.outputs);
    }
  }

  /** Whether entry `j` has the same URL as an earlier entry. Scrapy's
      duplicate filter drops a request for a URL it has already scheduled. */
  predicate Repeats(data: seq<Entry>, j: nat)
    requires j < |data|
  {
    data[j] in data[..j]
  }

  /** The request for entry `j`, once yielded, reaches the downloader. */
  predicate Reached(data: seq<Entry>, j: nat)
  {
    j < |data| && data[j].url.Some? && !Repeats(data, j)
  }

  /** Entry `j` is requested, downloaded, and its page can be read. */
  predicate Good(data: seq<Entry>, fetch: Fetch, j: nat)
  {
    Reached(data, j) && fetch(data[j].url.value).Some? && fetch(data[j].url.value).value.Markup?
  }

  /** The record built from a good entry's page. */
  function RecordOf(data: seq<Entry>, fetch: Fetch, j: nat): Records.Record
    requires Good(data, fetch, j)
  {
    Records.ResumeRecord(fetch(data[j].url.value).value.matches)
  }

  /** What happens once the request for entry `i` has reached the
      downloader: the indices requested from then on, in order, and
      everything the callbacks yielded. */
  datatype Chain = Chain(requested: seq<nat>, outputs: seq<Output>)

  /** The chain of detail pages followed from entry `i`. A failed download or
      a raise before the next request ends it; so does a next request the
      duplicate filter drops. */
  function ChainFrom(data: seq<Entry>, fetch: Fetch, i: nat): (t: Chain)
    requires Reached(data, i)
    ensures |t.requested| >= 1 && t.requested[0] == i
    ensures forall k :: 0 <= k < |t.requested| ==> Reached(data, t.requested[k])
    decreases |data| - i
  {
    match fetch(data[i].url.value)
    case None => Chain([i], [])
    case Some(body) =>
      var e := ParseAnimePage(data, i, body);
      if Requests(e.outputs) == [] || Repeats(data, i + 1) then Chain([i], e.outputs)
      else
        var next := ChainFrom(data, fetch, i + 1);
        assert forall k :: 1 <= k < 1 + |next.requested| ==> ([i] + next.requested)[k] == next.requested[k - 1];
        Chain([i] + next.requested, e.outputs + next.outputs)
  }

  /** The whole run: the start request, then the chain from entry 0. */
  function Run(data: seq<Entry>, fetch: Fetch): (t: Chain)
    ensures data == [] ==> t == Chain([], [])
  {
    var start := StartRequests(data);
    if Requests(start.outputs) == [] then Chain([], start.outputs)
    else
      var c := ChainFrom(data, fetch, 0);
      Chain(c.requested, start.outputs + c.outputs)
  }

  /** The first entry from `i` on that is not good, or `|data|`. */
  function FirstBad(data: seq<Entry>, fetch: Fetch, i: nat): (j: nat)
    requires i <= |data|
    ensures i <= j <= |data|
    ensures forall k :: i <= k < j ==> Good(data, fetch, k)
    ensures j == |data| || !Good(data, fetch, j)
    decreases |data| - i
  {
    if i == |data| || !Good(data, fetch, i) then i else FirstBad(data, fetch, i + 1)
  }

  /** The index after the last entry the chain from `i` requests: the first
      bad entry `j`, plus one when the request for `j` still reaches the
      downloader. */
  function LastRequested(data: seq<Entry>, fetch: Fetch, i: nat): (b: nat)
    requires i <= |data|
    ensures i <= b
  {
    var j := FirstBad(data, fetch, i);
    if Reached(data, j) then j + 1 else j
  }

  /** The indices `a`, `a` + 1, ..., `b` - 1. */
  function Span(a: nat, b: nat): (s: seq<nat>)
    requires a <= b
    ensures |s| == b - a
    decreases b - a
  {
    if a == b then [] else [a] + Span(a + 1, b)
  }

  /** The records of the good entries `i` .. `j` - 1, in order. */
  function GoodRecords(data: seq<Entry>, fetch: Fetch, i: nat, j: nat): (rs: seq<Records.Record>)
    requires i <= j
    requires forall k :: i <= k < j ==> Good(data, fetch, k)
    ensures |rs| == j - i
    decreases j - i
  {
    if i == j then [] else [RecordOf(data, fetch, i)] + GoodRecords(data, fetch, i + 1, j)
  }

  lemma SpanCons(a: nat, b: nat)
    requires a < b
    ensures Span(a, b) == [a] + Span(a + 1, b)
  {
  }

  /** The chain from a reached entry `i` requests every entry up to the first
      one `j` that is not good, in order, and `j` as well when that request
      reaches the downloader. */
  lemma {:induction false} ChainStopsAtFirstBad(data: seq<Entry>, fetch: Fetch, i: nat)
    requires Reached(data, i)
    ensures ChainFrom(data, fetch, i).requested == Span(i, LastRequested(data, fetch, i))
    decreases |data| - i
  {
    var j := FirstBad(data, fetch, i);
    if !Good(data, fetch, i) {
      assert j == i;
      assert ChainFrom(data, fetch, i).requested == [i];
      assert LastRequested(data, fetch, i) == i + 1;
    } else if !Reached(data, i + 1) {
      assert FirstBad(data, fetch, i + 1) == i + 1;
      assert ChainFrom(data, fetch, i).requested == [i];
      assert LastRequested(data, fetch, i) == i + 1;
    } else {
      ChainStopsAtFirstBad(data, fetch, i + 1);
      var b := LastRequested(data, fetch, i + 1);
      assert FirstBad(data, fetch, i + 1) == j;
      assert LastRequested(data, fetch, i) == b;
      SpanCons(i, b);
      assert ChainFrom(data, fetch, i).requested == [i] + ChainFrom(data, fetch, i + 1).requested;
    }
  }

  /** The chain from a reached entry `i` yields the records of exactly the
      entries before the first one that is not good, in order. */
  lemma {:induction false} ChainRecordsToFirstBad(data: seq<Entry>, fetch: Fetch, i: nat)
    requires Reached(data, i)
    ensures Items(ChainFrom(data, fetch, i).outputs) == GoodRecords(data, fetch, i, FirstBad(data, fetch, i))
    decreases |data| - i
  {
    var j := FirstBad(data, fetch, i);
    var t := ChainFrom(data, fetch, i);
    if !Good(data, fetch, i) {
      assert j == i;
      assert Items(t.outputs) == [];
    } else {
      var e := ParseAnimePage(data, i, fetch(data[i].url.value).value);
      ParseAnimePageRecord(data, i, fetch(data[i].url.value).value);
      assert Items(e.outputs) == [RecordOf(data, fetch, i)];
      if !Reached(data, i + 1) {
        assert FirstBad(data, fetch, i + 1) == i + 1;
        assert t.outputs == e.outputs;
      } else {
        var next := ChainFrom(data, fetch, i + 1);
        ChainRecordsToFirstBad(data, fetch, i + 1);
        assert FirstBad(data, fetch, i + 1) == j;
        assert t.outputs == e.outputs + next.outputs;
        ItemsAppend(e.outputs, next.outputs);
      }
    }
  }

  /** A whole run: every entry before the first bad one `j` is requested and
      recorded, in order, and `j` is requested too when its request reaches
      the downloader; nothing after `j` is. */
  lemma RunStopsAtFirstBad(data: seq<Entry>, fetch: Fetch)
    ensures Run(data, fetch).requested == Span(0, LastRequested(data, fetch, 0))
    ensures Items(Run(data, fetch).outputs) == GoodRecords(data, fetch, 0, FirstBad(data, fetch, 0))
  {
    var start := StartRequests(data);
    if Requests(start.outputs) == [] {
      assert !Reached(data, 0) && FirstBad(data, fetch, 0) == 0;
    } else {
      ChainStopsAtFirstBad(data, fetch, 0);
      ChainRecordsToFirstBad(data, fetch, 0);
      ItemsAppend(start.outputs, ChainFrom(data, fetch, 0).outputs);
    }
  }

  /** With no failure, the run requests every entry exactly once, in
      increasing index order, and records each, in the same order. */
  lemma RunVisitsEveryEntry(data: seq<Entry>, fetch: Fetch)
    requires forall k :: 0 <= k < |data| ==> Good(data, fetch, k)
    ensures Run(data, fetch).requested == Span(0, |data|)
    ensures Items(Run(data, fetch).outputs) == GoodRecords(data, fetch, 0, |data|)
  {
    RunStopsAtFirstBad(data, fetch);
    assert FirstBad(data, fetch, 0) == |data|;
  }

  /** Five entries whose third download fails: entries 0, 1 and 2 are
      requested and only two records are produced; the chain never reaches
      entries 3 and 4. */
  lemma ThirdOfFiveFails(data: seq<Entry>, fetch: Fetch)
    requires |data| == 5
    requires Good(data, fetch, 0) && Good(data, fetch, 1) && Reached(data, 2)
    requires fetch(data[2].url.value).None?
    ensures Run(data, fetch).requested == [0, 1, 2]
    ensures |Items(Run(data, fetch).outputs)| == 2
  {
    assert FirstBad(data, fetch, 2) == 2;
    assert FirstBad(data, fetch, 0) == 2;
    RunStopsAtFirstBad(data, fetch);
    assert Span(0, 3) == [0, 1, 2];
  }

  /** What the detail callbacks yield for the entries `ks`, in order; an
      entry whose download failed yields nothing. */
  function EntriesOutputs(data: seq<Entry>, fetch: Fetch, ks: seq<nat>): seq<Output>
    requires forall k :: 0 <= k < |ks| ==> ks[k] < |data| && data[ks[k]].url.Some?
  {
    if ks == [] then []
    else
      (match fetch(data[ks[0]].url.value)
       case None => []
       case Some(body) => ParseAnimePage(data, ks[0], body).outputs)
      + EntriesOutputs(data, fetch, ks[1..])
  }

  /** What the detail callback yields for entry `k`. */
  function EntryOutputs(data: seq<Entry>, fetch: Fetch, k: nat): seq<Output>
    requires k < |data| && data[k].url.Some?
  {
    match fetch(data[k].url.value)
    case None => []
    case Some(body) => ParseAnimePage(data, k, body).outputs
  }

  lemma EntriesOutputsCons(data: seq<Entry>, fetch: Fetch, k: nat, rest: seq<nat>)
    requires k < |data| && data[k].url.Some?
    requires forall n :: 0 <= n < |rest| ==> rest[n] < |data| && data[rest[n]].url.Some?
    ensures EntriesOutputs(data, fetch, [k] + rest) == EntryOutputs(data, fetch, k) + EntriesOutputs(data, fetch, rest)
  {
    assert ([k] + rest)[0] == k;
    assert ([k] + rest)[1..] == rest;
  }

  /** The chain's output is the callbacks' outputs for the requested entries,
      one entry after another; as each callback yields its record before its
      one request, a request for an entry is only ever made once the previous
      entry's page has been handled. */
  lemma {:induction false} ChainOutputsByEntry(data: seq<Entry>, fetch: Fetch, i: nat)
    requires Reached(data, i)
    ensures var t := ChainFrom(data, fetch, i);
      && (forall k :: 0 <= k < |t.requested| ==> Reached(data, t.requested[k]))
      && t.outputs == EntriesOutputs(data, fetch, t.requested)
    decreases |data| - i
  {
    var t := ChainFrom(data, fetch, i);
    EntriesOutputsCons(data, fetch, i, []);
    match fetch(data[i].url.value)
    case None =>
      assert t.requested == [i] && t.outputs == [];
    case Some(body) =>
      var e := ParseAnimePage(data, i, body);
      if Requests(e.outputs) == [] || Repeats(data, i + 1) {
        assert t.requested == [i] && t.outputs == e.outputs;
      } else {
        var next := ChainFrom(data, fetch, i + 1);
        assert t.requested == [i] + next.requested;
        assert t.outputs == e.outputs + next.outputs;
        ChainOutputsByEntry(data, fetch, i + 1);
        EntriesOutputsCons(data, fetch, i, next.requested);
      }
  }
}
