/** What a spider callback produces. Scrapy callbacks are generators: each
    yields records and follow-up requests in order, and an exception raised
    part-way ends the generator, keeping what it had already yielded. */
module Callbacks {
  import opened Wrappers
  import Records

  /** The context a request carries in its `meta` dictionary. */
  datatype Meta =
    | ListingContext(title: Option<string>, imageUrl: Option<string>, score: Option<string>)
    | IndexContext(index: nat)

  /** A follow-up request: a listing page at a pagination offset (callback
      `parse`), or a detail page (callback `parse_anime_page`). */
  datatype Request =
    | ListingRequest(offset: int)
    | DetailRequest(url: string, meta: Meta)

  /** One value a callback yields. */
  datatype Output = Item(record: Records.Record) | Follow(request: Request)

  /** Everything a callback yielded, and whether it ended by raising. */
  datatype Emission = Emission(outputs: seq<Output>, raised: bool)

  /** The requests among `outs`, in order. */
  function Requests(outs: seq<Output>): (rs: seq<Request>)
    ensures |rs| <= |outs|
    ensures forall r :: r in rs <==> Follow(r) in outs
  {
    if outs == [] then []
    else (if outs[0].Follow? then [outs[0].request] else []) + Requests(outs[1..])
  }

  /** The records among `outs`, in order. */
  function Items(outs: seq<Output>): (items: seq<Records.Record>)
    ensures |items| <= |outs|
    ensures forall r :: r in items <==> Item(r) in outs
  {
    if outs == [] then []
    else (if outs[0].Item? then [outs[0].record] else []) + Items(outs[1..])
  }

  lemma {:induction false} RequestsAppend(a: seq<Output>, b: seq<Output>)
    ensures Requests(a + b) == Requests(a) + Requests(b)
  {
    if a != [] {
      assert (a + b)[1..] == a[1..] + b;
      RequestsAppend(a[1..], b);
    } else {
      assert a + b == b;
    }
  }

  lemma {:induction false} ItemsAppend(a: seq<Output>, b: seq<Output>)
    ensures Items(a + b) == Items(a) + Items(b)
  {
    if a != [] {
      assert (a + b)[1..] == a[1..] + b;
      ItemsAppend(a[1..], b);
    } else {
      assert a + b == b;
    }
  }
}
