/**
 * The Discogs fetcher: the collection is read page by page, optionally
 * truncated, and turned into release records, reusing the tracklists saved by
 * an earlier run and fetching the others. Requests that are rate limited are
 * retried after a wait.
 */
module Discogs {
  import opened Wrappers
  import opened Strings
  import opened Records

  // ---------------------------------------------------------------------------
  // Data from the Discogs API
  // ---------------------------------------------------------------------------

  datatype Artist = Artist(name: string, id: int)

  /** `basic_information` of a collection item; absent fields are `None`. */
  datatype BasicInfo = BasicInfo(
    id: int,
    title: string,
    year: Option<int>,
    cover_image: Option<string>,
    thumb: Option<string>,
    artists: Option<seq<Artist>>)

  /** A collection item. */
  datatype Item = Item(id: int, instance_id: int, info: BasicInfo)

  /** One page of the collection listing. */
  datatype Page = Page(pages: int, releases: seq<Item>)

  /** An entry of a release's `tracklist`; absent fields are `None`. */
  datatype RawTrack = RawTrack(position: Option<string>, title: Option<string>, duration: Option<string>, type_: Option<string>)

  // ---------------------------------------------------------------------------
  // Track normalisation (`fetchReleaseTracks`)
  // ---------------------------------------------------------------------------

  /** `(t.type_ ?? "track") === "track"`. */
  predicate IsTrack(t: RawTrack) {
    t.type_.GetOr("track") == "track"
  }

  /** The trimmed fields, a missing field read as "". */
  function Normalise(t: RawTrack): Track {
    Track(Trim(t.position.GetOr("")), Trim(t.title.GetOr("")), Trim(t.duration.GetOr("")))
  }

  function KeepTracks(ts: seq<RawTrack>): seq<RawTrack> {
    if |ts| == 0 then []
    else (if IsTrack(ts[0]) then [ts[0]] else []) + KeepTracks(ts[1..])
  }

  /** The first filter keeps exactly the entries that are tracks, in order. */
  lemma {:induction false} KeepTracksMembers(ts: seq<RawTrack>)
    ensures |KeepTracks(ts)| <= |ts|
    ensures forall t :: t in KeepTracks(ts) <==> t in ts && IsTrack(t)
  {
    if |ts| > 0 {
      KeepTracksMembers(ts[1..]);
      assert ts == [ts[0]] + ts[1..];
    }
  }

  function NormaliseAll(ts: seq<RawTrack>): (r: seq<Track>)
    ensures |r| == |ts|
  {
    seq(|ts|, i requires 0 <= i < |ts| => Normalise(ts[i]))
  }

  function DropUntitled(ts: seq<Track>): seq<Track> {
    if |ts| == 0 then []
    else (if |ts[0].title| > 0 then [ts[0]] else []) + DropUntitled(ts[1..])
  }

  /** The last filter keeps exactly the tracks with a non-empty title, in order. */
  lemma {:induction false} DropUntitledMembers(ts: seq<Track>)
    ensures |DropUntitled(ts)| <= |ts|
    ensures forall t :: t in DropUntitled(ts) <==> t in ts && |t.title| > 0
  {
    if |ts| > 0 {
      DropUntitledMembers(ts[1..]);
      assert ts == [ts[0]] + ts[1..];
    }
  }

  /** The track list of a release: `None` is a `tracklist` that is missing or
      not an array. */
  function NormaliseTracks(tracklist: Option<seq<RawTrack>>): seq<Track> {
    DropUntitled(NormaliseAll(KeepTracks(tracklist.GetOr([]))))
  }

  /** The three passes as one: each entry in turn is kept, normalised, when
      it is a track whose trimmed title is not empty. */
  function Normalised(ts: seq<RawTrack>): seq<Track> {
    if |ts| == 0 then []
    else
      var t := ts[0];
      (if IsTrack(t) && Trim(t.title.GetOr("")) != "" then [Normalise(t)] else []) + Normalised(ts[1..])
  }

  lemma {:induction false} NormaliseAllConcat(a: seq<RawTrack>, b: seq<RawTrack>)
    ensures NormaliseAll(a + b) == NormaliseAll(a) + NormaliseAll(b)
  {
  }

  lemma {:induction false} DropUntitledConcat(a: seq<Track>, b: seq<Track>)
    ensures DropUntitled(a + b) == DropUntitled(a) + DropUntitled(b)
    decreases |a|
  {
    if |a| > 0 {
      assert (a + b)[1..] == a[1..] + b;
      DropUntitledConcat(a[1..], b);
    } else {
      assert a + b == b;
    }
  }

  /** The filter/map/filter chain keeps exactly the tracks with a non-empty
      trimmed title, normalised, in their order; a missing track list gives no
      tracks. */
  lemma {:induction false} NormaliseTracksFused(ts: seq<RawTrack>)
    ensures NormaliseTracks(Some(ts)) == Normalised(ts)
    ensures NormaliseTracks(None) == []
  {
    if |ts| > 0 {
      NormaliseTracksFused(ts[1..]);
      var head := if IsTrack(ts[0]) then [ts[0]] else [];
      assert KeepTracks(ts) == head + KeepTracks(ts[1..]);
      NormaliseAllConcat(head, KeepTracks(ts[1..]));
      DropUntitledConcat(NormaliseAll(head), NormaliseAll(KeepTracks(ts[1..])));
    }
  }

  /** Every normalised track has a non-empty title, and no field has
      whitespace left at either end. */
  lemma {:induction false} NormalisedTrimmed(ts: seq<RawTrack>)
    ensures forall t :: t in Normalised(ts) ==>
      t.title != "" && Trim(t.title) == t.title && Trim(t.position) == t.position && Trim(t.duration) == t.duration
  {
    if |ts| > 0 {
      NormalisedTrimmed(ts[1..]);
      var t := ts[0];
      TrimIdempotent(t.title.GetOr(""));
      TrimIdempotent(t.position.GetOr(""));
      TrimIdempotent(t.duration.GetOr(""));
    }
  }

  // ---------------------------------------------------------------------------
  // Rate-limited requests (`discogsFetchJson`)
  // ---------------------------------------------------------------------------

  /** The default `retries`. */
  const DefaultRetries: nat := 3

  /** The outcome of one `fetch`: `Rejected` when the request itself fails,
      otherwise a reply with its status, its `Retry-After` header when it is
      present and numeric, and its body parsed as JSON (`None` when it is
      not JSON). */
  datatype Response<T> = Response(status: int, retryAfter: Option<real>, body: Option<T>) | Rejected

  /** `res.ok`. */
  predicate IsOk(status: int) {
    200 <= status <= 299
  }

  /** The `Retry-After` header of a reply; none when the request failed. */
  function RetryAfter<T>(res: Response<T>): Option<real> {
    if res.Response? then res.retryAfter else None
  }

  /** A reply that is retried: status 429. */
  predicate IsRateLimited<T>(res: Response<T>) {
    res.Response? && res.status == 429
  }

  /** Why a request failed: the request itself failed, an OK reply had a body
      that is not JSON, a non-OK reply other than 429, or every attempt was
      rate limited. */
  datatype FetchError = NetworkError | InvalidBody | HttpError(status: int) | RateLimited(retries: nat)

  /** The wait before the next attempt after a 429 reply to attempt `attempt`:
      `Retry-After` seconds, otherwise one minute more per attempt. */
  function WaitMs(retryAfter: Option<real>, attempt: nat): real {
    if retryAfter.Some? then retryAfter.value * 1000.0 else (attempt + 1) as real * 60000.0
  }

  /** What a request comes to: its result and the waits slept on the way. */
  datatype Fetch<T> = Fetch(result: Result<T, FetchError>, waits: seq<real>)

  /** The result of an attempt that is not retried. */
  function Settle<T>(res: Response<T>): Result<T, FetchError>
    requires !IsRateLimited(res)
  {
    if res.Rejected? then Err(NetworkError)
    else if !IsOk(res.status) then Err(HttpError(res.status))
    else if res.body.None? then Err(InvalidBody)
    else Ok(res.body.value)
  }

  /** An attempt that is not rate limited succeeds exactly on an OK reply with
      a JSON body, and otherwise fails with the error naming its cause. */
  lemma SettleCases<T>(res: Response<T>)
    requires !IsRateLimited(res)
    ensures Settle(res).Ok? <==> res.Response? && IsOk(res.status) && res.body.Some?
    ensures Settle(res).Ok? ==> Settle(res).value == res.body.value
    ensures Settle(res) == Err(NetworkError) <==> res.Rejected?
    ensures Settle(res) == Err(InvalidBody) <==> res.Response? && IsOk(res.status) && res.body.None?
    ensures (Settle(res).Err? && Settle(res).error.HttpError?) <==> res.Response? && !IsOk(res.status)
    ensures res.Response? && !IsOk(res.status) ==> Settle(res) == Err(HttpError(res.status))
  {
  }

  /** The attempts from `attempt` on, `respond(a)` being the outcome of attempt `a`. */
  function FetchFrom<T>(respond: nat -> Response<T>, retries: nat, attempt: nat): Fetch<T>
    decreases retries - attempt
  {
    if attempt >= retries then Fetch(Err(RateLimited(retries)), [])
    else
      var res := respond(attempt);
      if IsRateLimited(res) then
        var rest := FetchFrom(respond, retries, attempt + 1);
        Fetch(rest.result, [WaitMs(res.retryAfter, attempt)] + rest.waits)
      else Fetch(Settle(res), [])
  }

  /** The waits after the rate-limited attempts `from .. to - 1`. */
  function Waits<T>(respond: nat -> Response<T>, from: nat, to: nat): (ws: seq<real>)
    requires from <= to
    ensures |ws| == to - from
    decreases (to as int) - (from as int)
  {
    if from == to then [] else [WaitMs(RetryAfter(respond(from)), from)] + Waits(respond, from + 1, to)
  }

  lemma {:induction false} WaitsIndex<T>(respond: nat -> Response<T>, from: nat, to: nat)
    requires from <= to
    ensures forall j :: from <= j < to ==> Waits(respond, from, to)[j - from] == WaitMs(RetryAfter(respond(j)), j)
    decreases (to as int) - (from as int)
  {
    if from < to {
      WaitsIndex(respond, from + 1, to);
    }
  }

  /** The sum of the waits. */
  function TotalWait(ws: seq<real>): real {
    if |ws| == 0 then 0.0 else ws[0] + TotalWait(ws[1..])
  }

  /** After a 429 reply to attempt `j`, the wait is the `Retry-After` seconds
      in milliseconds when the header is there, and otherwise `j + 1`
      minutes: one, two, three minutes for the default three attempts. */
  lemma WaitSchedule<T>(respond: nat -> Response<T>, from: nat, to: nat)
    requires from <= to
    requires forall j :: from <= j < to ==> IsRateLimited(respond(j))
    ensures forall j :: from <= j < to && RetryAfter(respond(j)).None? ==>
      Waits(respond, from, to)[j - from] == 60000.0 * (j + 1) as real
    ensures forall j :: from <= j < to && RetryAfter(respond(j)).Some? ==>
      Waits(respond, from, to)[j - from] == 1000.0 * RetryAfter(respond(j)).value
  {
    WaitsIndex(respond, from, to);
  }

  /** Without `Retry-After` headers, the first `a` rate-limited attempts make
      the request wait `30000 * a * (a + 1)` milliseconds in all. */
  lemma {:induction false} DefaultTotalWait<T>(respond: nat -> Response<T>, a: nat)
    requires forall j :: 0 <= j < a ==> IsRateLimited(respond(j)) && RetryAfter(respond(j)).None?
    ensures TotalWait(Waits(respond, 0, a)) == 30000.0 * (a * (a + 1)) as real
  {
    if a > 0 {
      DefaultTotalWait(respond, a - 1);
      WaitsSnoc(respond, 0, a - 1);
      TotalWaitSnoc(Waits(respond, 0, a - 1), WaitMs(RetryAfter(respond(a - 1)), a - 1));
    }
  }

  lemma {:induction false} TotalWaitSnoc(ws: seq<real>, w: real)
    ensures TotalWait(ws + [w]) == TotalWait(ws) + w
  {
    if |ws| > 0 {
      assert (ws + [w])[1..] == ws[1..] + [w];
      TotalWaitSnoc(ws[1..], w);
    }
  }

  /** When attempts `from .. a - 1` are rate limited and attempt `a` is the
      first that is not, the request ends there, with the body of an OK reply
      or the failure of that attempt, having waited once per rate-limited
      attempt; when every attempt up to `retries` is rate limited, it fails
      after waiting after each of them. A failed request, an OK reply whose
      body is not JSON and a non-OK reply other than 429 end the request at
      once. */
  lemma {:induction false} FetchFromSettles<T>(respond: nat -> Response<T>, retries: nat, from: nat, a: nat)
    requires from <= a <= retries
    requires forall j :: from <= j < a ==> IsRateLimited(respond(j))
    requires a < retries ==> !IsRateLimited(respond(a))
    ensures var f := FetchFrom(respond, retries, from);
      && f.waits == Waits(respond, from, a)
      && (a == retries ==> f.result == Err(RateLimited(retries)))
      && (a < retries && respond(a).Rejected? ==> f.result == Err(NetworkError))
      && (a < retries && respond(a).Response? && !IsOk(respond(a).status) ==> f.result == Err(HttpError(respond(a).status)))
      && (a < retries && respond(a).Response? && IsOk(respond(a).status) ==>
            f.result == if respond(a).body.Some? then Ok(respond(a).body.value) else Err(InvalidBody))
    decreases (a as int) - (from as int)
  {
    if from < a {
      FetchFromSettles(respond, retries, from + 1, a);
    }
  }

  /** With the default three attempts all rate limited and no `Retry-After`
      header, the request waits one, two and three minutes and then fails. */
  lemma DefaultRetriesExhausted<T>(respond: nat -> Response<T>)
    requires forall j :: 0 <= j < DefaultRetries ==> IsRateLimited(respond(j)) && RetryAfter(respond(j)).None?
    ensures FetchFrom(respond, DefaultRetries, 0) == Fetch(Err(RateLimited(3)), [60000.0, 120000.0, 180000.0])
  {
    FetchFromSettles(respond, DefaultRetries, 0, DefaultRetries);
    WaitSchedule(respond, 0, DefaultRetries);
  }

  /** `discogsFetchJson`, with `respond(a)` the outcome of attempt `a` and the
      sleeps returned as `waits`. */
  method DiscogsFetchJson<T>(respond: nat -> Response<T>, retries: nat)
    returns (result: Result<T, FetchError>, waits: seq<real>)
    ensures Fetch(result, waits) == FetchFrom(respond, retries, 0)
  {
    waits := [];
    for attempt := 0 to retries
      invariant forall j :: 0 <= j < attempt ==> IsRateLimited(respond(j))
      invariant waits == Waits(respond, 0, attempt)
    {
      var res := respond(attempt);
      if res.Rejected? {
        FetchFromSettles(respond, retries, 0, attempt);
        return Err(NetworkError), waits;
      }
      if IsOk(res.status) {
        FetchFromSettles(respond, retries, 0, attempt);
        if res.body.None? {
          return Err(InvalidBody), waits;
        }
        return Ok(res.body.value), waits;
      }
      if res.status == 429 {
        var waitMs := WaitMs(res.retryAfter, attempt);
        WaitsSnoc(respond, 0, attempt);
        waits := waits + [waitMs];
        continue;
      }
      FetchFromSettles(respond, retries, 0, attempt);
      return Err(HttpError(res.status)), waits;
    }
    FetchFromSettles(respond, retries, 0, retries);
    result := Err(RateLimited(retries));
  }

  lemma {:induction false} WaitsSnoc<T>(respond: nat -> Response<T>, from: nat, to: nat)
    requires from <= to
    ensures Waits(respond, from, to + 1) == Waits(respond, from, to) + [WaitMs(RetryAfter(respond(to)), to)]
    decreases (to as int) - (from as int)
  {
    if from < to {
      WaitsSnoc(respond, from + 1, to);
    }
  }

  // ---------------------------------------------------------------------------
  // Pagination (`fetchAllCollectionItems`)
  // ---------------------------------------------------------------------------

  /** The page counts the server reports never exceed `bound`. */
  ghost predicate Bounded(fetchPage: nat -> Result<Page, FetchError>, bound: nat) {
    forall p: nat :: fetchPage(p).Ok? ==> fetchPage(p).value.pages <= bound
  }

  /** The items of pages `page ..`, `pages` being the count last reported;
      the first failed page ends the listing with its error. */
  function Collect(fetchPage: nat -> Result<Page, FetchError>, page: nat, pages: int, bound: nat): Result<seq<Item>, FetchError>
    requires Bounded(fetchPage, bound) && pages <= bound && 1 <= page
    decreases bound + 1 - page
  {
    if page > pages then Ok([])
    else
      match fetchPage(page)
      case Err(e) => Err(e)
      case Ok(data) =>
        match Collect(fetchPage, page + 1, data.pages, bound)
        case Err(e) => Err(e)
        case Ok(rest) => Ok(data.releases + rest)
  }

  /** The releases of pages `lo .. hi`, in page order. */
  function Concat(fetchPage: nat -> Result<Page, FetchError>, lo: nat, hi: nat): seq<Item>
    requires forall p :: lo <= p <= hi ==> fetchPage(p).Ok?
    decreases hi + 1 - lo
  {
    if lo > hi then [] else fetchPage(lo).value.releases + Concat(fetchPage, lo + 1, hi)
  }

  /** When pages `page .. n` all load and all report `n` pages, the listing is
      their releases concatenated in page order. */
  lemma {:induction false} CollectUniform(fetchPage: nat -> Result<Page, FetchError>, page: nat, n: nat, bound: nat)
    requires Bounded(fetchPage, bound) && n <= bound && 1 <= page
    requires forall p :: page <= p <= n ==> fetchPage(p).Ok? && fetchPage(p).value.pages == n
    ensures Collect(fetchPage, page, n, bound) == Ok(Concat(fetchPage, page, n))
    decreases bound + 1 - page
  {
    if page <= n {
      CollectUniform(fetchPage, page + 1, n, bound);
    }
  }

  /** Each page read sets the count for the next request: when page `page`
      is requested and pages `page .. m` load, each of them before `m`
      reporting more pages than its own number and page `m` reporting at most
      `m`, the listing from `page` on is pages `page .. m` in order. */
  lemma {:induction false} CollectLatest(fetchPage: nat -> Result<Page, FetchError>, page: nat, pages: int, m: nat, bound: nat)
    requires Bounded(fetchPage, bound) && pages <= bound && 1 <= page <= pages && page <= m
    requires forall p :: page <= p <= m ==> fetchPage(p).Ok?
    requires forall p :: page <= p < m ==> fetchPage(p).value.pages > p
    requires fetchPage(m).value.pages <= m
    ensures Collect(fetchPage, page, pages, bound) == Ok(Concat(fetchPage, page, m))
    decreases bound + 1 - page
  {
    var data := fetchPage(page).value;
    if page == m {
      assert Collect(fetchPage, page + 1, data.pages, bound) == Ok([]);
      assert data.releases + [] == data.releases;
    } else {
      CollectLatest(fetchPage, page + 1, data.pages, m, bound);
    }
  }

  /** When page `page` is requested and pages `page .. e - 1` load, each
      reporting more pages than its own number, a failure of page `e` fails
      the listing with that error. */
  lemma {:induction false} CollectFails(fetchPage: nat -> Result<Page, FetchError>, page: nat, pages: int, e: nat, bound: nat)
    requires Bounded(fetchPage, bound) && pages <= bound && 1 <= page <= pages && page <= e
    requires forall p :: page <= p < e ==> fetchPage(p).Ok? && fetchPage(p).value.pages > p
    requires fetchPage(e).Err?
    ensures Collect(fetchPage, page, pages, bound) == Err(fetchPage(e).error)
    decreases bound + 1 - page
  {
    if page < e {
      CollectFails(fetchPage, page + 1, fetchPage(page).value.pages, e, bound);
    }
  }

  /** The listing follows the count of the latest page read: with `m` the
      first page whose reported count is at most its own number, the listing
      is pages `1 .. m` in order when they all load, and the error of the
      first page before or at `m` that fails otherwise. */
  lemma CollectionListingLatest(fetchPage: nat -> Result<Page, FetchError>, bound: nat, m: nat)
    requires Bounded(fetchPage, bound) && 1 <= bound && 1 <= m
    requires forall p :: 1 <= p < m && fetchPage(p).Ok? ==> fetchPage(p).value.pages > p
    requires fetchPage(m).Ok? ==> fetchPage(m).value.pages <= m
    ensures (forall p :: 1 <= p <= m ==> fetchPage(p).Ok?) ==>
      Collect(fetchPage, 1, 1, bound) == Ok(Concat(fetchPage, 1, m))
    ensures forall e :: 1 <= e <= m && fetchPage(e).Err? && (forall p :: 1 <= p < e ==> fetchPage(p).Ok?) ==>
      Collect(fetchPage, 1, 1, bound) == Err(fetchPage(e).error)
  {
    if forall p :: 1 <= p <= m ==> fetchPage(p).Ok? {
      CollectLatest(fetchPage, 1, 1, m, bound);
    }
    forall e | 1 <= e <= m && fetchPage(e).Err? && (forall p :: 1 <= p < e ==> fetchPage(p).Ok?)
      ensures Collect(fetchPage, 1, 1, bound) == Err(fetchPage(e).error)
    {
      CollectFails(fetchPage, 1, 1, e, bound);
    }
  }

  /** The listing: page 1 is always requested, and the pages after it are
      requested up to the count reported by the last page read. When every page
      up to `n >= 1` loads and reports `n`, the listing is pages `1 .. n` in
      order; when page 1 loads and reports at most one page, it alone is read. */
  lemma CollectionListing(fetchPage: nat -> Result<Page, FetchError>, bound: nat)
    requires Bounded(fetchPage, bound) && 1 <= bound
    ensures forall n :: 1 <= n <= bound && (forall p :: 1 <= p <= n ==> fetchPage(p).Ok? && fetchPage(p).value.pages == n) ==>
      Collect(fetchPage, 1, 1, bound) == Ok(Concat(fetchPage, 1, n))
    ensures fetchPage(1).Ok? && fetchPage(1).value.pages <= 1 ==> Collect(fetchPage, 1, 1, bound) == Ok(fetchPage(1).value.releases)
    ensures fetchPage(1).Err? ==> Collect(fetchPage, 1, 1, bound) == Err(fetchPage(1).error)
  {
    forall n | 1 <= n <= bound && (forall p :: 1 <= p <= n ==> fetchPage(p).Ok? && fetchPage(p).value.pages == n)
      ensures Collect(fetchPage, 1, 1, bound) == Ok(Concat(fetchPage, 1, n))
    {
      CollectUniform(fetchPage, 2, n, bound);
    }
    if fetchPage(1).Ok? && fetchPage(1).value.pages <= 1 {
      var releases := fetchPage(1).value.releases;
      assert Collect(fetchPage, 2, fetchPage(1).value.pages, bound) == Ok([]);
      assert releases + [] == releases;
    }
  }

  /** `fetchAllCollectionItems`, `fetchPage(p)` being the outcome of the
      request for page `p`; `bound` bounds the page counts the server reports. */
  method FetchAllCollectionItems(fetchPage: nat -> Result<Page, FetchError>, ghost bound: nat)
    returns (result: Result<seq<Item>, FetchError>)
    requires Bounded(fetchPage, bound) && 1 <= bound
    ensures result == Collect(fetchPage, 1, 1, bound)
  {
    var items: seq<Item> := [];
    var page: nat := 1;
    var pages: int := 1;
    PrependEmpty(Collect(fetchPage, page, pages, bound));
    while page <= pages
      invariant 1 <= page && pages <= bound && page <= bound + 1
      invariant Collect(fetchPage, 1, 1, bound) == Prepend(items, Collect(fetchPage, page, pages, bound))
      decreases bound + 1 - page
    {
      var response := fetchPage(page);
      if response.Err? {
        return Err(response.error);
      }
      var data := response.value;
      PrependAssoc(items, data.releases, Collect(fetchPage, page + 1, data.pages, bound));
      pages := data.pages;
      items := items + data.releases;
      page := page + 1;
    }
    assert items + [] == items;
    return Ok(items);
  }

  /** `items` in front of a listing that succeeded; an error stays. */
  function Prepend(items: seq<Item>, r: Result<seq<Item>, FetchError>): Result<seq<Item>, FetchError> {
    match r
    case Ok(rest) => Ok(items + rest)
    case Err(e) => Err(e)
  }

  lemma PrependEmpty(r: Result<seq<Item>, FetchError>)
    ensures Prepend([], r) == r
  {
    if r.Ok? {
      assert [] + r.value == r.value;
    }
  }

  lemma PrependAssoc(a: seq<Item>, b: seq<Item>, r: Result<seq<Item>, FetchError>)
    ensures Prepend(a, Prepend(b, r)) == Prepend(a + b, r)
  {
    if r.Ok? {
      assert a + (b + r.value) == (a + b) + r.value;
    }
  }

  // ---------------------------------------------------------------------------
  // Truncation, the saved index and the merge (`main`)
  // ---------------------------------------------------------------------------

  /** `collectionItems.slice(0, MAX_RELEASES)` when `MAX_RELEASES > 0`. */
  function Limit(items: seq<Item>, maxReleases: int): (r: seq<Item>)
    ensures |r| <= |items| && r == items[..|r|]
    ensures maxReleases <= 0 ==> r == items
    ensures maxReleases > 0 ==> |r| == if maxReleases < |items| then maxReleases else |items|
  {
    if maxReleases > 0 && maxReleases < |items| then items[..maxReleases] else items
  }

  /** A record of the saved file: one whose `id` is a number, or another. */
  datatype Saved = Numbered(record: Release) | Unnumbered

  /** `existingById` after the loop over `saved`. */
  function IndexOf(saved: seq<Saved>): map<int, Release> {
    if |saved| == 0 then map[]
    else
      var m := IndexOf(saved[..|saved| - 1]);
      var s := saved[|saved| - 1];
      if s.Numbered? then m[s.record.id := s.record] else m
  }

  /** The index holds exactly the ids of the numbered records, each mapped to
      the last record that has it. */
  lemma {:induction false} IndexLastWins(saved: seq<Saved>)
    ensures forall id :: id in IndexOf(saved) <==> exists i :: 0 <= i < |saved| && saved[i].Numbered? && saved[i].record.id == id
    ensures forall id :: id in IndexOf(saved) ==>
      && IndexOf(saved)[id].id == id
      && exists i :: 0 <= i < |saved| && saved[i] == Numbered(IndexOf(saved)[id]) &&
           forall j :: i < j < |saved| ==> !(saved[j].Numbered? && saved[j].record.id == id)
  {
    if |saved| > 0 {
      var init := saved[..|saved| - 1];
      IndexLastWins(init);
      assert forall i :: 0 <= i < |init| ==> init[i] == saved[i];
    }
  }

  /** The loop that builds `existingById`. */
  method BuildIndex(saved: seq<Saved>) returns (existingById: map<int, Release>)
    ensures existingById == IndexOf(saved)
  {
    existingById := map[];
    for i := 0 to |saved|
      invariant existingById == IndexOf(saved[..i])
    {
      assert saved[..i + 1][..i] == saved[..i];
      var r := saved[i];
      if r.Numbered? {
        existingById := existingById[r.record.id := r.record];
      }
    }
    assert saved[..|saved|] == saved;
  }

  /** `(info.artists ?? []).map((a) => a.name).join(", ")`. */
  function ArtistNames(info: BasicInfo): string {
    var artists := info.artists.GetOr([]);
    Join(seq(|artists|, i requires 0 <= i < |artists| => artists[i].name), ", ")
  }

  /** `info.cover_image || info.thumb || ""`. */
  function Cover(info: BasicInfo): (c: string)
    ensures info.cover_image.Some? && info.cover_image.value != "" ==> c == info.cover_image.value
    ensures (info.cover_image.None? || info.cover_image.value == "") && info.thumb.Some? ==> c == info.thumb.value
    ensures (info.cover_image.None? || info.cover_image.value == "") && info.thumb.None? ==> c == ""
  {
    if info.cover_image.Some? && info.cover_image.value != "" then info.cover_image.value
    else if info.thumb.Some? && info.thumb.value != "" then info.thumb.value
    else ""
  }

  /** A saved record is reused when it has a non-empty track list. */
  predicate Reuses(index: map<int, Release>, item: Item) {
    item.info.id in index && |index[item.info.id].tracks| > 0
  }

  /** The record pushed for one collection item: the saved one with its
      descriptive fields refreshed, or a new one with the fetched tracks
      (`detail(id)` is the outcome of the release request). */
  function RecordFor(item: Item, index: map<int, Release>, detail: int -> Result<Option<seq<RawTrack>>, FetchError>): Result<Release, FetchError> {
    var info := item.info;
    if Reuses(index, item) then
      Ok(index[info.id].(instance_id := item.instance_id, title := info.title, artist := ArtistNames(info),
                         year := info.year.GetOr(0), cover_image := Cover(info)))
    else
      match detail(info.id)
      case Err(e) => Err(e)
      case Ok(tracklist) =>
        Ok(Release(info.id, item.instance_id, info.title, ArtistNames(info), info.year.GetOr(0), Cover(info),
                   NormaliseTracks(tracklist)))
  }

  /** `RecordFor` with the index and the release requests fixed. */
  function RecordsFor(index: map<int, Release>, detail: int -> Result<Option<seq<RawTrack>>, FetchError>): Item -> Result<Release, FetchError> {
    item => RecordFor(item, index, detail)
  }

  /** The records of the loop over `items`, `recordFor` building each; the
      first failure aborts the loop with its error. */
  function MergeAll(items: seq<Item>, recordFor: Item -> Result<Release, FetchError>): Result<seq<Release>, FetchError> {
    if |items| == 0 then Ok([])
    else
      match MergeAll(items[..|items| - 1], recordFor)
      case Err(e) => Err(e)
      case Ok(rs) =>
        match recordFor(items[|items| - 1])
        case Err(e) => Err(e)
        case Ok(r) => Ok(rs + [r])
  }

  /** The merge succeeds exactly when every record can be built, and then
      there is one record per item, in item order. */
  lemma {:induction false} MergeAllShape(items: seq<Item>, recordFor: Item -> Result<Release, FetchError>)
    ensures MergeAll(items, recordFor).Ok? <==> forall i :: 0 <= i < |items| ==> recordFor(items[i]).Ok?
    ensures MergeAll(items, recordFor).Ok? ==>
      var rs := MergeAll(items, recordFor).value;
      |rs| == |items| && forall i :: 0 <= i < |items| ==> recordFor(items[i]) == Ok(rs[i])
  {
    if |items| > 0 {
      var init := items[..|items| - 1];
      MergeAllShape(init, recordFor);
      assert forall i :: 0 <= i < |init| ==> init[i] == items[i];
    }
  }

  /** Once a prefix of the items fails, the whole merge fails with the same
      error: the first failure wins. */
  lemma {:induction false} MergeAllFirstError(items: seq<Item>, n: nat, recordFor: Item -> Result<Release, FetchError>)
    requires n <= |items| && MergeAll(items[..n], recordFor).Err?
    ensures MergeAll(items, recordFor) == MergeAll(items[..n], recordFor)
    decreases |items|
  {
    if n < |items| {
      var init := items[..|items| - 1];
      assert init[..n] == items[..n];
      MergeAllFirstError(init, n, recordFor);
    } else {
      assert items[..n] == items;
    }
  }

  /** A record can be built exactly when a saved record is reused or the
      release request succeeds. */
  lemma RecordForOk(item: Item, index: map<int, Release>, detail: int -> Result<Option<seq<RawTrack>>, FetchError>)
    ensures RecordFor(item, index, detail).Ok? <==> Reuses(index, item) || detail(item.info.id).Ok?
    ensures !Reuses(index, item) && detail(item.info.id).Err? ==> RecordFor(item, index, detail) == Err(detail(item.info.id).error)
  {
  }

  /** A record keeps the id of its release and takes its instance, title,
      artists (joined with ", "), year (0 when absent) and cover from the
      collection item; a reused record keeps its saved track list, and any
      other gets the normalised tracks of the release request. */
  lemma RecordForFields(item: Item, index: map<int, Release>, detail: int -> Result<Option<seq<RawTrack>>, FetchError>)
    requires forall id :: id in index ==> index[id].id == id
    requires RecordFor(item, index, detail).Ok?
    ensures var r := RecordFor(item, index, detail).value;
      && r.id == item.info.id
      && r.instance_id == item.instance_id
      && r.title == item.info.title
      && r.artist == ArtistNames(item.info)
      && r.year == (if item.info.year.Some? then item.info.year.value else 0)
      && r.cover_image == Cover(item.info)
      && (Reuses(index, item) ==> r.tracks == index[item.info.id].tracks && |r.tracks| > 0)
      && (!Reuses(index, item) ==> r.tracks == NormaliseTracks(detail(item.info.id).value))
  {
  }

  /** The body of the merge loop for one item. */
  method MergeOne(item: Item, existingById: map<int, Release>, detail: int -> Result<Option<seq<RawTrack>>, FetchError>)
    returns (record: Result<Release, FetchError>)
    ensures record == RecordFor(item, existingById, detail)
  {
    var info := item.info;
    var releaseId := info.id;
    if releaseId in existingById && |existingById[releaseId].tracks| > 0 {
      var previous := existingById[releaseId];
      return Ok(previous.(instance_id := item.instance_id, title := info.title,
        artist := ArtistNames(info), year := info.year.GetOr(0), cover_image := Cover(info)));
    }
    var fetched := detail(releaseId);
    if fetched.Err? {
      return Err(fetched.error);
    }
    var tracks := NormaliseTracks(fetched.value);
    record := Ok(Release(releaseId, item.instance_id, info.title, ArtistNames(info),
      info.year.GetOr(0), Cover(info), tracks));
  }

  /** The merge loop of `main`. */
  method MergeReleases(items: seq<Item>, existingById: map<int, Release>, detail: int -> Result<Option<seq<RawTrack>>, FetchError>)
    returns (result: Result<seq<Release>, FetchError>)
    ensures result == MergeAll(items, RecordsFor(existingById, detail))
  {
    ghost var recordFor := RecordsFor(existingById, detail);
    var releases: seq<Release> := [];
    for i := 0 to |items|
      invariant MergeAll(items[..i], recordFor) == Ok(releases)
    {
      var record := MergeOne(items[i], existingById, detail);
      assert items[..i + 1][..i] == items[..i];
      assert recordFor(items[i]) == record;
      if record.Err? {
        MergeAllFirstError(items, i + 1, recordFor);
        return Err(record.error);
      }
      releases := releases + [record.value];
    }
    assert items[..|items|] == items;
    return Ok(releases);
  }

  /** What a run writes: the releases of the (truncated) collection. */
  function FetchCollection(
    fetchPage: nat -> Result<Page, FetchError>, bound: nat, maxReleases: int,
    existing: Option<seq<Saved>>, detail: int -> Result<Option<seq<RawTrack>>, FetchError>): Result<seq<Release>, FetchError>
    requires Bounded(fetchPage, bound) && 1 <= bound
  {
    match Collect(fetchPage, 1, 1, bound)
    case Err(e) => Err(e)
    case Ok(items) => MergeAll(Limit(items, maxReleases), RecordsFor(IndexOf(existing.GetOr([])), detail))
  }

  /** A run that succeeds writes one record per processed collection item, in
      collection order, with the item's release id; with a positive
      `maxReleases` at most that many. */
  lemma FetchCollectionShape(
    fetchPage: nat -> Result<Page, FetchError>, bound: nat, maxReleases: int,
    existing: Option<seq<Saved>>, detail: int -> Result<Option<seq<RawTrack>>, FetchError>)
    requires Bounded(fetchPage, bound) && 1 <= bound
    ensures var out := FetchCollection(fetchPage, bound, maxReleases, existing, detail);
      out.Ok? ==>
        var items := Limit(Collect(fetchPage, 1, 1, bound).value, maxReleases);
        && |out.value| == |items|
        && (maxReleases > 0 ==> |out.value| <= maxReleases)
        && forall i :: 0 <= i < |items| ==> out.value[i].id == items[i].info.id
  {
    var out := FetchCollection(fetchPage, bound, maxReleases, existing, detail);
    if out.Ok? {
      var items := Limit(Collect(fetchPage, 1, 1, bound).value, maxReleases);
      var index := IndexOf(existing.GetOr([]));
      IndexLastWins(existing.GetOr([]));
      MergeAllShape(items, RecordsFor(index, detail));
      forall i | 0 <= i < |items|
        ensures out.value[i].id == items[i].info.id
      {
        RecordForFields(items[i], index, detail);
      }
    }
  }

  /** `main` between reading the inputs and writing the output file. */
  method FetchDiscogs(
    fetchPage: nat -> Result<Page, FetchError>, ghost bound: nat, maxReleases: int,
    existing: Option<seq<Saved>>, detail: int -> Result<Option<seq<RawTrack>>, FetchError>)
    returns (result: Result<seq<Release>, FetchError>)
    requires Bounded(fetchPage, bound) && 1 <= bound
    ensures result == FetchCollection(fetchPage, bound, maxReleases, existing, detail)
  {
    var listing := FetchAllCollectionItems(fetchPage, bound);
    if listing.Err? {
      return Err(listing.error);
    }
    var collectionItems := listing.value;
    if maxReleases > 0 {
      collectionItems := collectionItems[..if maxReleases < |collectionItems| then maxReleases else |collectionItems|];
    }
    var existingById := BuildIndex(existing.GetOr([]));
    result := MergeReleases(collectionItems, existingById, detail);
  }
}
