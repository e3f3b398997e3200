# MyAnimeList crawl spiders in Dafny

This project models the two Scrapy spiders of the MyAnimeList crawler and proves
properties of them.

- `anime.py`, the fresh-mode spider, walks the "top anime" ranking listing.
  Pages are addressed by a `limit` offset that starts at 0, advances by 50 and
  stops at 4400. For every ranking row it schedules a request for the anime's
  detail page; that request carries the row's title, image URL and score. From
  each detail page it builds a 34-key record.
- `detail_data.py`, the resume-mode spider, reads back the list of entries an
  earlier run saved. It visits their detail pages strictly one after another:
  each callback yields a 31-key record and then the request for the next index.

Both spiders pass every extracted value through the same normaliser,
`clean_data`. It strips a string, strips the entries of a list and drops those
that are blank, and returns anything else unchanged.

Files, one module each:

- `wrappers.dfy`: `Option`.
- `normalize.dfy`: `clean_data` and Python's argument-less `str.strip()`. The
  whitespace set is the code points for which `str.isspace()` holds.
- `selectors.dfy`: the 31 extraction rules of `parse_anime_page`. The CSS/XPath
  selectors themselves are abstract: a parsed page is the map from each rule to
  what its selector matched. `.get()` returns the first match or `None`;
  `.getall()` returns every match.
- `records.dfy`: the two record builders and their key spellings.
- `callbacks.dfy`: what a callback yields. A Scrapy callback is a generator. It
  is modelled as the sequence of records and requests it yielded, plus whether
  it ended by raising, which keeps what was yielded before.
- `fresh.dfy`: `parse`, `parse_anime_page` and the listing chain of `anime.py`.
- `resume.dfy`: `start_requests`, `parse_anime_page` and the index chain of
  `detail_data.py`.

Things outside the spiders become parameters:

- The fetch service: the rows of each listing page, or the body of each detail
  page, or a failed download.
- The saved entry list: already loaded.

Scrapy's duplicate filter matters to the resume chain. A request for a URL that
was already scheduled is dropped, so the callback for that entry never runs
and the chain ends. The model drops a request exactly when its URL string
equals an earlier entry's.

## Model

| member | source | states |
|---|---|---|
| Normalize.LeadingSpaces | anime.py:26 | the length of the whitespace run at the front of a string; everything before it is whitespace and the next character is not |
| Normalize.TrailingStart | anime.py:26 | where the whitespace run at the back of a string begins; everything after it is whitespace and the character before it is not |
| Normalize.Strip | anime.py:26 | `str.strip()` returns a string with no whitespace at either end, never longer than its input |
| Normalize.StripRemovesOnlyOuterSpace | anime.py:26 | the input is a whitespace prefix, then the stripped string, then a whitespace suffix; the result is empty exactly when the input is all whitespace |
| Normalize.TrimmedIsFixed | anime.py:26 | stripping leaves a string unchanged exactly when it has no whitespace at either end |
| Normalize.StripIdempotent | anime.py:26 | stripping twice equals stripping once |
| Normalize.CleanList | anime.py:21-23 | the list branch never returns more entries than it was given; `CleanListKeepsNonBlank` and `KeptIndicesAreExactlyNonBlank` pin down which entries it returns |
| Normalize.CleanListEntriesAreTrimmed | anime.py:23 | every entry the list branch returns is non-empty and has no surrounding whitespace |
| Normalize.CleanListAppend | anime.py:23 | the list branch treats entries one at a time: cleaning a concatenation concatenates the cleaned parts |
| Normalize.KeptIndicesIncrease | anime.py:23 | the positions of kept entries are listed in strictly increasing order |
| Normalize.KeptIndicesAreNonBlank | anime.py:23 | every listed position holds an entry whose stripped form is non-empty |
| Normalize.NonBlankIndicesAreKept | anime.py:23 | every entry whose stripped form is non-empty has its position listed |
| Normalize.KeptIndicesAreExactlyNonBlank | anime.py:21-23 | a position is listed if and only if its entry's stripped form is non-empty |
| Normalize.CleanListKeepsNonBlank | anime.py:21-23 | the list branch returns one entry per kept position, in the original order, each the stripped form of that entry |
| Normalize.CleanListFixedPoints | anime.py:23 | the list branch leaves a list unchanged exactly when every entry is non-empty and already trimmed |
| Normalize.CleanListIdempotent | anime.py:23 | cleaning a list twice equals cleaning it once |
| Normalize.Clean | anime.py:16-29 | `clean_data` keeps the kind of its input (absent, string or list); its result is always clean; a clean input comes back unchanged; a list never grows |
| Normalize.CleanIdempotent | detail_data.py:28-33 | the resume spider's identical `clean_data` applied twice equals it applied once |
| Selectors.Select | anime.py:62-96 | a `.get()` rule yields the first match or `None` and never a list; a `.getall()` rule yields the list of all matches, empty when its region is missing |
| Records.Details | detail_data.py:39-78 | every rule has a value, and every value is in `clean_data`'s output form; a `.getall()` rule stores its matches with the blank ones dropped and the rest stripped (an empty list when its region is missing); a `.get()` rule stores its first match stripped, or `None` when it matched nothing |
| Records.FreshRecord | anime.py:99-134 | the fresh record holds all 34 keys; its title, image URL and score are the stripped listing strings from the request context, or `None` where the row's `.get()` at anime.py:35-37 matched nothing; its detail values are the page's |
| Records.ResumeRecord | detail_data.py:80-112 | the resume record holds exactly the 31 rule keys, nothing from the listing, and the page's detail values |
| Records.ResumeNameRoundTrip | detail_data.py:81-111 | every resume key name reads back as the rule it stores |
| Records.FreshNameRoundTrip | anime.py:100-133 | every fresh key name reads back as the key it stores |
| Records.ResumeNamesAreDistinct | detail_data.py:81-111 | two rules share a resume key name if and only if they are the same rule, so the record has 31 distinct dictionary keys |
| Records.FreshNamesAreDistinct | anime.py:100-133 | two fresh keys share a name if and only if they are the same key, so the listing score and the page score never overwrite each other and the record has 34 distinct dictionary keys |
| Records.SpidersAgreeOnDetailFields | detail_data.py:39-78 | both spiders store the same cleaned value for each rule of the same page |
| Records.SpidersSpellKeysDifferently | anime.py:115-129 | the spiders' key names agree for a rule exactly when it is neither the type nor the score; the fresh `score` is the resume spider's spelling of the page score, and the fresh spider files the page score under `score_detail` |
| Records.MissingRegion | anime.py:62-96 | a rule whose region is missing gets `None` or an empty list, and every other rule's value is unaffected |
| FreshSpider.NextOffset | anime.py:48-57 | a next page is requested exactly when the offset plus 50 is at most 4400, and its offset is the current one plus 50 |
| FreshSpider.PaginationBoundary | anime.py:52-57 | offset 4350 leads to 4400, and 4400 leads nowhere |
| FreshSpider.WalkOnGrid | anime.py:48-55 | the offsets followed from any offset step by 50, stay at most 4400 after the first, and stop where one more step would pass 4400 |
| FreshSpider.WalkLength | anime.py:48-55 | from an offset on the 50-grid below the ceiling, the walk has one entry per grid offset up to and including 4400 |
| FreshSpider.WalkFromStart | anime.py:48-55 | from `limit=0` the followed offsets are exactly 0, 50, ..., 4400: 89 pages |
| FreshSpider.RowRequests | anime.py:34-45 | one detail request per row, in row order, each carrying that row's link and its title, image URL and score; a row without a link raises there, keeping the earlier requests |
| FreshSpider.Parse | anime.py:31-57 | the listing callback raises exactly when some row has no link; otherwise it yields one detail request per row, then one next-page request exactly when the next offset is within 4400; it never yields a record |
| FreshSpider.ParseAnimePage | anime.py:59-136 | on a readable page, exactly one record, the fresh record of that page and context; on a page extraction fails on, the exception is caught and nothing is yielded; never a request, never a raise |
| FreshSpider.Crawl | anime.py:52-55 | the listing offsets requested begin with the page first requested; which pages follow is stated by `CrawlFollowsItsOwnRequests`, `CrawlEndsOnFailure` and `CrawlStaysOnGrid` |
| FreshSpider.CrawlEndsOnFailure | anime.py:31-45 | a listing page that fails to download ends the chain with nothing yielded; a page with a row lacking a link ends it with the detail requests yielded before the raise |
| FreshSpider.CrawlFollowsItsOwnRequests | anime.py:52-55 | every listing page after the first is one a callback asked for, in the order asked |
| FreshSpider.CrawlStaysOnGrid | anime.py:48-55 | whatever fails, the listing offsets requested step by 50 and never pass 4400 after the first |
| FreshSpider.CompleteCrawlFollowsWalk | anime.py:48-55 | when every page downloads and every row has a link, the crawl requests exactly the offsets of the walk |
| FreshSpider.CrawlFromStart | anime.py:48-55 | from `limit=0`, whatever fails, the k-th requested offset is 50k and at most 4400 |
| FreshSpider.CompleteCrawlFromStart | anime.py:48-55 | from `limit=0` with no failure, all 89 listing pages are requested, in order |
| FreshSpider.CrawlOutputsByPage | anime.py:31-57 | the crawl's output is the listing callbacks' outputs for the requested pages, page after page |
| FreshSpider.ListingContextReachesRecord | anime.py:100-102 | a row's title, image URL and score travel in its detail request and reach the record cleaned; the page's own score is a separate value |
| FreshSpider.TwoPageCrawl | anime.py:41-55 | from 4350 with two linked rows per page: pages 4350 and 4400 are requested, yielding two detail requests, the next-page request, then two more, and nothing beyond 4400 |
| ResumeSpider.Advance | detail_data.py:113-117 | a request for index i + 1, carrying that index, exactly when it is in range and its entry has a URL; a raise when the entry has none; nothing past the end |
| ResumeSpider.StartRequests | detail_data.py:13-21 | nothing for an empty list; otherwise at most one request, the one for entry 0 carrying index 0 |
| ResumeSpider.ParseAnimePage | detail_data.py:35-117 | an unreadable page raises before yielding anything; otherwise the record comes first and a request, if any, comes second and last; a request is yielded exactly when index + 1 is in range with a URL |
| ResumeSpider.ParseAnimePageRecord | detail_data.py:80-112 | the one record yielded is the resume record of the page, and it comes first |
| ResumeSpider.ChainFrom | detail_data.py:113-117 | the chain from a reached entry starts there, and every index it requests is in range, has a URL and is not a repeat of an earlier entry's URL, so its request reaches the downloader |
| ResumeSpider.Run | detail_data.py:19-21 | an empty entry list yields no request and no record |
| ResumeSpider.ChainStopsAtFirstBad | detail_data.py:113-117 | the chain requests every entry in order up to the first one that fails, and that one too when its request reaches the downloader |
| ResumeSpider.ChainRecordsToFirstBad | detail_data.py:80-117 | the chain yields the records of exactly the entries before the first failing one, in order |
| ResumeSpider.RunStopsAtFirstBad | detail_data.py:13-117 | a whole run requests and records entries in order up to the first failure and nothing after it |
| ResumeSpider.RunVisitsEveryEntry | detail_data.py:13-117 | with no failure, every index 0 .. n-1 is requested exactly once, in increasing order, and each entry's record is yielded in that order |
| ResumeSpider.ThirdOfFiveFails | detail_data.py:113-117 | with five entries whose third download fails, entries 0, 1 and 2 are requested and only two records are produced |
| ResumeSpider.ChainOutputsByEntry | detail_data.py:80-117 | the chain's output is each requested entry's callback output in request order, and every requested index reaches the downloader |

## Left out

- Scrapy's scheduler, concurrency, download delay, user agent and log level (anime.py:10-14) are the framework's. In fresh mode, the model gives the order in which each callback yields requests, not the order in which Scrapy downloads them.
- The `logging` calls (anime.py:54, 57, 136) have no effect on what is yielded.
- Offsite filtering by `allowed_domains` is not modelled: every URL is assumed to be on the site.
- Scrapy's duplicate filter compares request fingerprints of canonicalised URLs. The resume model compares URL strings exactly. The fresh model does not filter duplicate detail requests at all: it describes what the callbacks yield.
- Scrapy also refuses a URL string without a scheme. The model treats every string as a valid URL; it does treat a missing link or entry URL as a raise.
- The CSS and XPath selectors are not interpreted: a page is the map from each rule to its matches, and a body they cannot be applied to is `NotMarkup`.
- Loading the entry list from `animedata.json` (detail_data.py:15-16) is not modelled: the list is a parameter.
- Parsing `limit` out of the response URL (anime.py:48) is not modelled: the offset is an integer parameter. The spider only ever requests URLs it built from an integer, so the parse cannot fail on them.
- Dictionary key order: records are maps, and the order in which Python inserts keys is not kept.
- detail_data.py:1-4 is prose, not Python. The model starts at the class.
- detail_data.py has no exception handling: a page that fails to download or to parse ends the chain, and later entries are never requested (`ResumeSpider.ThirdOfFiveFails`).
- usedb.py is not part of this model: it is database and CSV reporting.
