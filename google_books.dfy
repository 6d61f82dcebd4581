/** The book-metadata gateway (backend/src/services/googleBooksService.ts):
    a cache of upstream answers with a one-hour lifetime, a bounded retry
    policy with exponential back-off for searches, an id-shape check that
    short-circuits to a fallback record, and the two normalisers that turn
    upstream volume records into the application's book shapes.

    The upstream service is not called: each request is answered by an
    `Outcome` supplied by the caller, and wall-clock time is the parameter
    `now` (milliseconds). */
module GoogleBooks {
  import opened Wrappers
  import opened Text

  // ---------------------------------------------------------------
  // Upstream records
  // ---------------------------------------------------------------

  datatype ImageLinks = ImageLinks(thumbnail: Option<string>, smallThumbnail: Option<string>)

  /** One entry of `industryIdentifiers`; `kind` is the upstream `type`. */
  datatype IndustryIdentifier = IndustryIdentifier(kind: string, identifier: string)

  datatype VolumeInfo = VolumeInfo(
    title: Option<string>,
    authors: Option<seq<string>>,
    description: Option<string>,
    publishedDate: Option<string>,
    pageCount: Option<int>,
    categories: Option<seq<string>>,
    imageLinks: Option<ImageLinks>,
    industryIdentifiers: Option<seq<IndustryIdentifier>>)

  /** A volume record; upstream answers may lack `volumeInfo`. */
  datatype Volume = Volume(id: string, volumeInfo: Option<VolumeInfo>)

  datatype SearchResponse = SearchResponse(items: Option<seq<Volume>>, totalItems: int)

  /** The answer of one upstream request: the payload, or an error with the
      HTTP status of the response (absent when no response arrived) and the
      client's error code. `isAxios` is false for errors raised outside the
      HTTP client. */
  datatype Outcome<T> = Ok(data: T) | Err(isAxios: bool, status: Option<int>, code: Option<string>)

  // ---------------------------------------------------------------
  // Application shapes
  // ---------------------------------------------------------------

  /** What `formatBookData` returns; `None` fields are `null`. */
  datatype BookData = BookData(
    googleBookId: string,
    title: string,
    author: string,
    description: string,
    coverUrl: Option<string>,
    publishedDate: Option<string>,
    pageCount: Option<int>,
    categories: seq<string>,
    isbn: Option<string>)

  datatype ListingItem = ListingItem(googleBookId: string, title: string, author: string, coverUrl: Option<string>)

  datatype Listing = Listing(items: seq<ListingItem>, totalItems: int)

  const UnknownTitle := "Unknown Title"
  const UnknownAuthor := "Unknown Author"
  const NoDescription := "No description available."
  const ListingUnknownTitle := "Título desconhecido"
  const ListingUnknownAuthor := "Autor desconhecido"

  const FallbackTitle := "Book Information Temporarily Unavailable"
  const FallbackDescription := "Sorry, we couldn't retrieve the book information at this time. Please try again later."

  // ---------------------------------------------------------------
  // JavaScript truthiness on optional strings
  // ---------------------------------------------------------------

  /** A present, non-empty string (what `if (s)` accepts). */
  predicate Truthy(o: Option<string>) { o.Some? && o.value != [] }

  /** `o || d`. */
  function StrOr(o: Option<string>, d: string): (r: string)
    ensures Truthy(o) ==> r == o.value
    ensures !Truthy(o) ==> r == d
  {
    if Truthy(o) then o.value else d
  }

  /** `o || null`. */
  function StrOrNull(o: Option<string>): (r: Option<string>)
    ensures Truthy(o) ==> r == o
    ensures !Truthy(o) ==> r == None
  {
    if Truthy(o) then o else None
  }

  /** `list?.[0] || d`. */
  function FirstOr(o: Option<seq<string>>, d: string): (r: string)
    ensures o.Some? && o.value != [] && o.value[0] != [] ==> r == o.value[0]
    ensures !(o.Some? && o.value != [] && o.value[0] != []) ==> r == d
  {
    if o.Some? && o.value != [] then StrOr(Some(o.value[0]), d) else d
  }

  // ---------------------------------------------------------------
  // Id validation and the fallback record
  // ---------------------------------------------------------------

  /** One character of the class `[\w\-_]`. */
  predicate IsIdChar(c: char) { IsWordChar(c) || c == '-' }

  /** `/^[\w\-_]{8,25}$/`: 8 to 25 characters, each an ASCII letter, digit,
      underscore or hyphen. */
  predicate IsValidGoogleBookId(id: string)
  {
    8 <= |id| <= 25 && forall i :: 0 <= i < |id| ==> IsIdChar(id[i])
  }

  /** `createFallbackBook`: the record served when the upstream cannot be used. */
  function FallbackBook(id: string): (v: Volume)
    ensures v.id == id && v.volumeInfo.Some?
    ensures v.volumeInfo.value.imageLinks.None? && v.volumeInfo.value.industryIdentifiers.None?
  {
    Volume(id, Some(VolumeInfo(Some(FallbackTitle), Some([UnknownAuthor]), Some(FallbackDescription),
                               None, None, None, None, None)))
  }

  // ---------------------------------------------------------------
  // formatBookData
  // ---------------------------------------------------------------

  predicate IsIsbnType(kind: string) { kind == "ISBN_13" || kind == "ISBN_10" }

  /** `ids.findIndex(id => id.type === 'ISBN_13' || id.type === 'ISBN_10')`,
      with `|ids|` standing for "not found". */
  function FindIsbn(ids: seq<IndustryIdentifier>): (k: nat)
    ensures k <= |ids|
    ensures k < |ids| ==> IsIsbnType(ids[k].kind)
    ensures forall j :: 0 <= j < k ==> !IsIsbnType(ids[j].kind)
  {
    if ids == [] then 0
    else if IsIsbnType(ids[0].kind) then 0
    else 1 + FindIsbn(ids[1..])
  }

  /** The ISBN `formatBookData` reports: the identifier of the first ISBN
      entry in list order, or null (also when that identifier is empty). */
  function Isbn(ids: Option<seq<IndustryIdentifier>>): Option<string>
  {
    if ids.None? then None
    else
      var k := FindIsbn(ids.value);
      if k < |ids.value| then StrOrNull(Some(ids.value[k].identifier)) else None
  }

  lemma IsbnIsFirstMatch(ids: seq<IndustryIdentifier>, k: nat)
    requires k < |ids| && IsIsbnType(ids[k].kind) && ids[k].identifier != []
    requires forall j :: 0 <= j < k ==> !IsIsbnType(ids[j].kind)
    ensures Isbn(Some(ids)) == Some(ids[k].identifier)
  {
    assert FindIsbn(ids) == k;
  }

  lemma IsbnNoneWithoutMatch(ids: seq<IndustryIdentifier>)
    requires forall j :: 0 <= j < |ids| ==> !IsIsbnType(ids[j].kind)
    ensures Isbn(Some(ids)) == None
  {
  }

  predicate StartsWithHttp(s: string) { IsPrefix("http:", s) }

  /** `coverUrl.replace('http:', 'https:')` for a URL that starts with `http:`. */
  function ToHttps(s: string): (r: string)
    requires StartsWithHttp(s)
    ensures IsPrefix("https:", r) && r[6..] == s[5..]
  {
    "https:" + s[5..]
  }

  /** The cover URL `formatBookData` reports: thumbnail, else smallThumbnail,
      else null, with a leading `http:` rewritten to `https:`. */
  function CoverUrl(links: Option<ImageLinks>): (r: Option<string>)
    ensures r.Some? ==> !StartsWithHttp(r.value) && r.value != []
    ensures links.None? ==> r == None
  {
    if links.None? then None
    else
      var c := if Truthy(links.value.thumbnail) then links.value.thumbnail else StrOrNull(links.value.smallThumbnail);
      if c.Some? && StartsWithHttp(c.value) then
        var r := ToHttps(c.value);
        assert r[4] == 's';
        Some(r)
      else c
  }

  lemma CoverPrefersThumbnail(links: ImageLinks)
    requires Truthy(links.thumbnail) && !StartsWithHttp(links.thumbnail.value)
    ensures CoverUrl(Some(links)) == links.thumbnail
  {
  }

  lemma CoverFallsBackToSmall(links: ImageLinks)
    requires !Truthy(links.thumbnail) && Truthy(links.smallThumbnail)
    requires !StartsWithHttp(links.smallThumbnail.value)
    ensures CoverUrl(Some(links)) == links.smallThumbnail
  {
  }

  lemma CoverRewritesHttp(links: ImageLinks)
    requires Truthy(links.thumbnail) && StartsWithHttp(links.thumbnail.value)
    ensures CoverUrl(Some(links)) == Some("https:" + links.thumbnail.value[5..])
  {
  }

  /** `formatBookData`; `None` when the record has no `volumeInfo`, where the
      source raises a TypeError. */
  function FormatBookData(v: Volume): (r: Option<BookData>)
    ensures r.Some? <==> v.volumeInfo.Some?
    ensures r.Some? ==> r.value.googleBookId == v.id
    ensures r.Some? ==> r.value.title != [] && r.value.author != [] && r.value.description != []
    ensures r.Some? && r.value.coverUrl.Some? ==> !StartsWithHttp(r.value.coverUrl.value)
    ensures r.Some? && r.value.pageCount.Some? ==> r.value.pageCount.value != 0
  {
    if v.volumeInfo.None? then None
    else
      var vi := v.volumeInfo.value;
      Some(BookData(
        v.id,
        StrOr(vi.title, UnknownTitle),
        FirstOr(vi.authors, UnknownAuthor),
        StrOr(vi.description, NoDescription),
        CoverUrl(vi.imageLinks),
        StrOrNull(vi.publishedDate),
        if vi.pageCount.Some? && vi.pageCount.value != 0 then vi.pageCount else None,
        vi.categories.GetOr([]),
        Isbn(vi.industryIdentifiers)))
  }

  /** Every field of `formatBookData` is filled from the record or from its default. */
  lemma FormatBookDataDefaults(v: Volume)
    requires v.volumeInfo.Some?
    ensures var vi, b := v.volumeInfo.value, FormatBookData(v).value;
      && (b.title == UnknownTitle <== !Truthy(vi.title))
      && (Truthy(vi.title) ==> b.title == vi.title.value)
      && (vi.authors.None? || vi.authors.value == [] ==> b.author == UnknownAuthor)
      && (vi.authors.Some? && vi.authors.value != [] && vi.authors.value[0] != [] ==> b.author == vi.authors.value[0])
      && (vi.authors.Some? && vi.authors.value != [] && vi.authors.value[0] == [] ==> b.author == UnknownAuthor)
      && (!Truthy(vi.description) ==> b.description == NoDescription)
      && (Truthy(vi.description) ==> b.description == vi.description.value)
      && (!Truthy(vi.publishedDate) ==> b.publishedDate.None?)
      && (Truthy(vi.publishedDate) ==> b.publishedDate == vi.publishedDate)
      && (vi.pageCount.None? || vi.pageCount == Some(0) ==> b.pageCount.None?)
      && (vi.pageCount.Some? && vi.pageCount.value != 0 ==> b.pageCount == vi.pageCount)
      && (vi.categories.None? ==> b.categories == [])
      && (vi.categories.Some? ==> b.categories == vi.categories.value)
      && (vi.industryIdentifiers.None? ==> b.isbn.None?)
      && (vi.imageLinks.None? ==> b.coverUrl.None?)
  {
  }

  /** The fallback record formats to the fixed apology book with no cover,
      dates, categories or ISBN. */
  lemma FormatFallback(id: string)
    ensures FormatBookData(FallbackBook(id)) ==
      Some(BookData(id, FallbackTitle, UnknownAuthor, FallbackDescription, None, None, None, [], None))
  {
  }

  // ---------------------------------------------------------------
  // formatSearchResults
  // ---------------------------------------------------------------

  function ListingCover(links: Option<ImageLinks>): (r: Option<string>)
    ensures links.None? ==> r == None
    ensures links.Some? && Truthy(links.value.thumbnail) ==> r == links.value.thumbnail
  {
    if links.None? then None
    else if Truthy(links.value.thumbnail) then links.value.thumbnail
    else StrOrNull(links.value.smallThumbnail)
  }

  function ListingEntry(v: Volume): ListingItem
    requires v.volumeInfo.Some?
  {
    var vi := v.volumeInfo.value;
    ListingItem(v.id, StrOr(vi.title, ListingUnknownTitle), FirstOr(vi.authors, ListingUnknownAuthor),
                ListingCover(vi.imageLinks))
  }

  /** The `filter(item => item.volumeInfo).map(...)` of `formatSearchResults`. */
  function ListingEntries(items: seq<Volume>): (r: seq<ListingItem>)
    ensures |r| <= |items|
  {
    if items == [] then []
    else if items[0].volumeInfo.Some? then [ListingEntry(items[0])] + ListingEntries(items[1..])
    else ListingEntries(items[1..])
  }

  function FormatSearchResults(resp: SearchResponse): (r: Listing)
    ensures resp.items.None? || resp.items.value == [] ==> r == Listing([], 0)
    ensures resp.items.Some? && resp.items.value != [] ==> r.totalItems == resp.totalItems
  {
    if resp.items.None? || resp.items.value == [] then Listing([], 0)
    else Listing(ListingEntries(resp.items.value), resp.totalItems)
  }

  /** The items with a `volumeInfo`, in order. */
  function WithInfo(items: seq<Volume>): (r: seq<Volume>)
    ensures forall i :: 0 <= i < |r| ==> r[i].volumeInfo.Some?
  {
    if items == [] then []
    else if items[0].volumeInfo.Some? then [items[0]] + WithInfo(items[1..])
    else WithInfo(items[1..])
  }

  /** The listing keeps exactly the items that have a `volumeInfo`, in order,
      one entry each, with the listing's own defaults and the upstream cover
      left as it is. */
  lemma {:induction false} ListingKeepsInfoItems(items: seq<Volume>)
    ensures var kept := WithInfo(items); var r := ListingEntries(items);
      && |r| == |kept|
      && forall i :: 0 <= i < |r| ==>
           && r[i].googleBookId == kept[i].id
           && r[i].title == StrOr(kept[i].volumeInfo.value.title, ListingUnknownTitle)
           && r[i].author == FirstOr(kept[i].volumeInfo.value.authors, ListingUnknownAuthor)
           && r[i].coverUrl == ListingCover(kept[i].volumeInfo.value.imageLinks)
  {
    if items != [] {
      ListingKeepsInfoItems(items[1..]);
    }
  }

  /** Items without a `volumeInfo` are dropped, items with one are all kept. */
  lemma {:induction false} WithInfoCount(items: seq<Volume>)
    ensures |WithInfo(items)| <= |items|
    ensures (forall i :: 0 <= i < |items| ==> items[i].volumeInfo.Some?) ==> WithInfo(items) == items
  {
    if items != [] {
      WithInfoCount(items[1..]);
    }
  }

  // ---------------------------------------------------------------
  // Cache keys
  // ---------------------------------------------------------------

  const CacheTtl: int := 3600000
  const DefaultRetries: nat := 3

  function SearchKey(query: string, startIndex: int, maxResults: int): (k: string)
    ensures !IsBookKey(k)
  {
    var k := "search:" + query + ":" + IntToString(startIndex) + ":" + IntToString(maxResults);
    assert k[0] == 's';
    k
  }

  function BookKey(id: string): string
  {
    "book:" + id
  }

  predicate IsBookKey(k: string) { IsPrefix("book:", k) }

  lemma BookKeyIsBookKey(id: string)
    ensures IsBookKey(BookKey(id)) && BookKey(id)[5..] == id
  {
  }

  predicate NoColon(s: string) { forall i :: 0 <= i < |s| ==> s[i] != ':' }

  /** Splitting at the last colon: a colon-free tail is determined by the string. */
  lemma {:induction false} SplitAtLastColon(a: string, b: string, c: string, d: string)
    requires NoColon(b) && NoColon(d)
    requires a + ":" + b == c + ":" + d
    ensures a == c && b == d
  {
    var s := a + ":" + b;
    assert s == c + ":" + d;
    assert forall i :: |s| - |b| <= i < |s| ==> s[i] != ':' by {
      forall i | |s| - |b| <= i < |s| ensures s[i] != ':' {
        assert s[i] == b[i - (|s| - |b|)];
      }
    }
    assert forall i :: |s| - |d| <= i < |s| ==> s[i] != ':' by {
      forall i | |s| - |d| <= i < |s| ensures s[i] != ':' {
        assert s[i] == d[i - (|s| - |d|)];
      }
    }
    assert s[|s| - |b| - 1] == ':' && s[|s| - |d| - 1] == ':';
    assert a == s[..|a|] && c == s[..|c|];
    assert b == s[|a| + 1..] && d == s[|c| + 1..];
  }

  /** Different searches use different cache entries, although the query
      itself may contain colons. */
  lemma SearchKeyInjective(q1: string, s1: int, m1: int, q2: string, s2: int, m2: int)
    requires SearchKey(q1, s1, m1) == SearchKey(q2, s2, m2)
    ensures q1 == q2 && s1 == s2 && m1 == m2
  {
    var x1, x2 := IntToString(s1), IntToString(s2);
    var y1, y2 := IntToString(m1), IntToString(m2);
    assert ("search:" + q1 + ":" + x1) + ":" + y1 == ("search:" + q2 + ":" + x2) + ":" + y2;
    SplitAtLastColon("search:" + q1 + ":" + x1, y1, "search:" + q2 + ":" + x2, y2);
    assert ("search:" + q1) + ":" + x1 == ("search:" + q2) + ":" + x2;
    SplitAtLastColon("search:" + q1, x1, "search:" + q2, x2);
    assert q1 == ("search:" + q1)[7..] && q2 == ("search:" + q2)[7..];
    IntToStringInjective(s1, s2);
    IntToStringInjective(m1, m2);
  }

  // ---------------------------------------------------------------
  // The cache table
  // ---------------------------------------------------------------

  datatype Payload = SearchData(response: SearchResponse) | BookRecord(volume: Volume)

  datatype CacheEntry = CacheEntry(data: Payload, timestamp: int)

  /** `Date.now() - entry.timestamp < CACHE_TTL`. */
  predicate Fresh(e: CacheEntry, now: int) { now - e.timestamp < CacheTtl }

  /** Every `book:` entry holds a volume for a valid id; every other entry
      holds a search answer. */
  ghost predicate WellFormed(cache: map<string, CacheEntry>)
  {
    forall k :: k in cache ==>
      (IsBookKey(k) <==> cache[k].data.BookRecord?) && (IsBookKey(k) ==> IsValidGoogleBookId(k[5..]))
  }

  /** Whether an error makes `searchBooks` try again (retries permitting):
      status 503, code ECONNABORTED or no response at all. */
  predicate Retryable<T>(o: Outcome<T>)
  {
    o.Err? && o.isAxios && (o.status == Some(503) || o.code == Some("ECONNABORTED") || o.status.None?)
  }

  function Pow2(n: nat): (r: nat)
    ensures r >= 1
  {
    if n == 0 then 1 else 2 * Pow2(n - 1)
  }

  /** `1000 * Math.pow(2, 3 - retries)`. */
  function Backoff(retries: nat): (d: int)
    requires retries <= DefaultRetries
    ensures d >= 1000
  {
    1000 * Pow2(DefaultRetries - retries)
  }

  function Sum(s: seq<int>): int
  {
    if s == [] then 0 else s[0] + Sum(s[1..])
  }

  const EmptySearch := SearchResponse(Some([]), 0)

  /** A fresh search answer is cached under `key`. */
  predicate SearchHit(cache: map<string, CacheEntry>, key: string, now: int)
  {
    key in cache && Fresh(cache[key], now) && cache[key].data.SearchData?
  }

  /** In a well-formed cache every entry under a search key is a search
      answer, so a search is answered from the cache exactly when the entry
      is fresh. */
  lemma SearchKeysHoldSearches(cache: map<string, CacheEntry>, key: string, now: int)
    requires WellFormed(cache) && !IsBookKey(key)
    ensures SearchHit(cache, key, now) <==> key in cache && Fresh(cache[key], now)
  {
  }

  /** The upstream part of `searchBooks`, from a request made with `retries`
      retries left: the answer, how many requests were made, the waits asked
      for between them, and whether the last request succeeded. A success
      answers with its payload; a retryable error with retries left waits
      1000·2^(3 − retries) ms and calls again; any other error answers
      `{items: [], totalItems: 0}`. */
  datatype Attempts = Attempts(result: SearchResponse, count: nat, delays: seq<int>, succeeded: bool)

  function Attempt(outcomes: seq<Outcome<SearchResponse>>, retries: nat): Attempts
    requires retries <= DefaultRetries && retries < |outcomes|
    decreases retries
  {
    match outcomes[0]
    case Ok(d) => Attempts(d, 1, [], true)
    case Err(_, _, _) =>
      if retries > 0 && Retryable(outcomes[0]) then
        var rest := Attempt(outcomes[1..], retries - 1);
        Attempts(rest.result, rest.count + 1, [Backoff(retries)] + rest.delays, rest.succeeded)
      else
        Attempts(EmptySearch, 1, [], false)
  }

  /** The retry policy bounds the requests and fixes the waits: between 1 and
      `retries + 1` requests, every one but the last failed with a retryable
      error, and the j-th wait is `Backoff(retries - j)`, so with the default
      three retries at most four requests and waits of 1000, 2000 and 4000 ms. */
  lemma {:induction false} AttemptSchedule(outcomes: seq<Outcome<SearchResponse>>, retries: nat)
    requires retries <= DefaultRetries && retries < |outcomes|
    ensures var a := Attempt(outcomes, retries);
      && 1 <= a.count <= retries + 1
      && |a.delays| == a.count - 1
      && (forall j :: 0 <= j < |a.delays| ==> j < retries && a.delays[j] == Backoff(retries - j))
      && (forall j :: 0 <= j < a.count - 1 ==> Retryable(outcomes[j]))
    decreases retries
  {
    if outcomes[0].Err? && retries > 0 && Retryable(outcomes[0]) {
      AttemptSchedule(outcomes[1..], retries - 1);
      var rest := Attempt(outcomes[1..], retries - 1);
      var a := Attempt(outcomes, retries);
      forall j | 0 <= j < |a.delays|
        ensures j < retries && a.delays[j] == Backoff(retries - j)
      {
        if j > 0 {
          assert a.delays[j] == rest.delays[j - 1];
        }
      }
      forall j | 0 <= j < a.count - 1
        ensures Retryable(outcomes[j])
      {
        if j > 0 {
          assert outcomes[j] == outcomes[1..][j - 1];
        }
      }
    }
  }

  /** How the requests end: a success answers its payload; a failure answers
      the empty listing and happens only once retries are used up or the
      error is not retryable. */
  lemma {:induction false} AttemptResult(outcomes: seq<Outcome<SearchResponse>>, retries: nat)
    requires retries <= DefaultRetries && retries < |outcomes|
    ensures var a := Attempt(outcomes, retries);
      && 1 <= a.count <= retries + 1
      && (a.succeeded <==> outcomes[a.count - 1].Ok?)
      && (a.succeeded ==> a.result == outcomes[a.count - 1].data)
      && (!a.succeeded ==> (a.result == EmptySearch
            && (a.count == retries + 1 || !Retryable(outcomes[a.count - 1]))))
    decreases retries
  {
    if outcomes[0].Err? && retries > 0 && Retryable(outcomes[0]) {
      AttemptResult(outcomes[1..], retries - 1);
      var rest := Attempt(outcomes[1..], retries - 1);
      assert outcomes[rest.count] == outcomes[1..][rest.count - 1];
    }
  }

  /** With the default of three retries the waits are 1000, 2000 and 4000 ms. */
  lemma DefaultBackoffSchedule()
    ensures Backoff(3) == 1000 && Backoff(2) == 2000 && Backoff(1) == 4000
  {
  }

  /** Each wait is twice the one before it. */
  lemma BackoffDoubles(retries: nat)
    requires 0 < retries <= DefaultRetries
    ensures Backoff(retries - 1) == 2 * Backoff(retries)
  {
  }

  /** `searchBooks` checks the cache again before each retry. Failures never
      write the cache and the clock only moves forward, so once the first
      check misses every later one misses too; the model checks once. */
  lemma StaleStaysStale(cache: map<string, CacheEntry>, key: string, now: int, wait: int)
    requires !SearchHit(cache, key, now) && wait >= 0
    ensures !SearchHit(cache, key, now + wait)
  {
  }

  /** The effect of one `searchBooks` call: what it returns, how many upstream
      requests it made, the waits it asked for, and the resulting cache. */
  datatype SearchRun = SearchRun(result: SearchResponse, attempts: nat, delays: seq<int>, cache: map<string, CacheEntry>)

  /** `searchBooks(query, startIndex, maxResults, retries)`: a fresh entry
      answers without a request; otherwise the requests run and a success is
      cached, stamped with the time of the request that succeeded. */
  function SearchSpec(cache: map<string, CacheEntry>, key: string, now: int,
                      outcomes: seq<Outcome<SearchResponse>>, retries: nat): SearchRun
    requires retries <= DefaultRetries && retries < |outcomes|
  {
    if SearchHit(cache, key, now) then
      SearchRun(cache[key].data.response, 0, [], cache)
    else
      var a := Attempt(outcomes, retries);
      SearchRun(a.result, a.count, a.delays,
                if a.succeeded then cache[key := CacheEntry(SearchData(a.result), now + Sum(a.delays))] else cache)
  }

  /** Only a successful request writes the cache, only under the search's own
      key, and a failed search leaves the cache as it was. */
  lemma SearchCaching(cache: map<string, CacheEntry>, key: string, now: int,
                      outcomes: seq<Outcome<SearchResponse>>, retries: nat)
    requires retries <= DefaultRetries && retries < |outcomes|
    ensures var r := SearchSpec(cache, key, now, outcomes, retries);
      && (r.attempts == 0 <==> SearchHit(cache, key, now))
      && (r.attempts == 0 ==> r.result == cache[key].data.response && r.cache == cache)
      && (r.attempts > 0 && outcomes[r.attempts - 1].Ok? ==>
            r.result == outcomes[r.attempts - 1].data
            && r.cache == cache[key := CacheEntry(SearchData(r.result), now + Sum(r.delays))])
      && (r.attempts > 0 && outcomes[r.attempts - 1].Err? ==> r.result == EmptySearch && r.cache == cache)
      && (forall k :: k != key ==> (k in r.cache <==> k in cache) && (k in cache ==> r.cache[k] == cache[k]))
  {
    AttemptResult(outcomes, retries);
  }

  /** Searching keeps the cache well-formed. */
  lemma SearchSpecWellFormed(cache: map<string, CacheEntry>, key: string, now: int,
                             outcomes: seq<Outcome<SearchResponse>>, retries: nat)
    requires WellFormed(cache) && !IsBookKey(key) && retries <= DefaultRetries && retries < |outcomes|
    ensures WellFormed(SearchSpec(cache, key, now, outcomes, retries).cache)
  {
  }

  /** The effect of one `getBookById` call. */
  datatype BookRun = BookRun(volume: Volume, requested: bool, cache: map<string, CacheEntry>)

  /** `getBookById`: the cache is consulted before the id is validated; an
      empty or invalid id gets the fallback without a request; a request that
      succeeds is cached, one that fails gets the fallback. */
  function BookSpec(cache: map<string, CacheEntry>, id: string, now: int, outcome: Outcome<Volume>): BookRun
    requires WellFormed(cache)
  {
    var key := BookKey(id);
    BookKeyIsBookKey(id);
    if key in cache && Fresh(cache[key], now) then
      BookRun(cache[key].data.volume, false, cache)
    else if id == [] || !IsValidGoogleBookId(id) then
      BookRun(FallbackBook(id), false, cache)
    else match outcome
      case Ok(v) => BookRun(v, true, cache[key := CacheEntry(BookRecord(v), now)])
      case Err(_, _, _) => BookRun(FallbackBook(id), true, cache)
  }

  /** An invalid id is never sent upstream, never cached, and gets the fallback. */
  lemma InvalidIdGetsFallback(cache: map<string, CacheEntry>, id: string, now: int, outcome: Outcome<Volume>)
    requires WellFormed(cache) && !IsValidGoogleBookId(id)
    ensures var r := BookSpec(cache, id, now, outcome);
      r.volume == FallbackBook(id) && !r.requested && r.cache == cache
  {
    BookKeyIsBookKey(id);
    assert BookKey(id) !in cache;
  }

  /** Only a successful request writes the cache, and only under `book:id`. */
  lemma BookSpecCaching(cache: map<string, CacheEntry>, id: string, now: int, outcome: Outcome<Volume>)
    requires WellFormed(cache)
    ensures var r := BookSpec(cache, id, now, outcome);
      && (r.cache != cache ==>
            (r.requested && outcome.Ok? && r.cache == cache[BookKey(id) := CacheEntry(BookRecord(outcome.data), now)]))
      && (r.requested && outcome.Err? ==> r.volume == FallbackBook(id))
      && (r.requested <==> !(BookKey(id) in cache && Fresh(cache[BookKey(id)], now)) && IsValidGoogleBookId(id))
      && WellFormed(r.cache)
  {
    BookKeyIsBookKey(id);
  }

  /** A fresh cached record is served as it is, whatever the id looks like. */
  lemma BookCacheHit(cache: map<string, CacheEntry>, id: string, now: int, outcome: Outcome<Volume>)
    requires WellFormed(cache) && BookKey(id) in cache && Fresh(cache[BookKey(id)], now)
    ensures var r := BookSpec(cache, id, now, outcome);
      r.volume == cache[BookKey(id)].data.volume && !r.requested && r.cache == cache
  {
  }

  // ---------------------------------------------------------------
  // The gateway object
  // ---------------------------------------------------------------

  /** The module-level `cache` record and the two operations that use it. */
  class Gateway {
    var cache: map<string, CacheEntry>

    ghost predicate Valid()
      reads this
    {
      WellFormed(cache)
    }

    constructor()
      ensures Valid() && cache == map[]
    {
      cache := map[];
    }

    /** `searchBooks(query, startIndex, maxResults, retries)`. `outcomes[i]`
        answers the i-th upstream request of this call and its retries;
        `delays` are the waits requested between requests. */
    method SearchBooks(query: string, startIndex: int, maxResults: int, retries: nat, now: int,
                       outcomes: seq<Outcome<SearchResponse>>)
      returns (r: SearchResponse, attempts: nat, delays: seq<int>)
      requires Valid() && retries <= DefaultRetries && retries < |outcomes|
      modifies this
      ensures Valid()
      ensures SearchRun(r, attempts, delays, cache)
                == SearchSpec(old(cache), SearchKey(query, startIndex, maxResults), now, outcomes, retries)
      decreases retries
    {
      var key := SearchKey(query, startIndex, maxResults);
      SearchKeysHoldSearches(cache, key, now);
      SearchSpecWellFormed(cache, key, now, outcomes, retries);
      if key in cache && Fresh(cache[key], now) {
        return cache[key].data.response, 0, [];
      }
      var o := outcomes[0];
      if o.Ok? {
        cache := cache[key := CacheEntry(SearchData(o.data), now)];
        return o.data, 1, [];
      }
      if retries > 0 && Retryable(o) {
        var delay := Backoff(retries);
        StaleStaysStale(cache, key, now, delay);
        var rest, n, waits := SearchBooks(query, startIndex, maxResults, retries - 1, now + delay, outcomes[1..]);
        return rest, n + 1, [delay] + waits;
      }
      return EmptySearch, 1, [];
    }

    /** `getBookById(googleBookId)`; `requested` says whether an upstream
        request was made (and so whether `outcome` was used). */
    method GetBookById(id: string, now: int, outcome: Outcome<Volume>) returns (v: Volume, requested: bool)
      requires Valid()
      modifies this
      ensures Valid()
      ensures BookRun(v, requested, cache) == BookSpec(old(cache), id, now, outcome)
    {
      BookSpecCaching(cache, id, now, outcome);
      var key := BookKey(id);
      BookKeyIsBookKey(id);
      if key in cache && Fresh(cache[key], now) {
        return cache[key].data.volume, false;
      }
      if id == [] || !IsValidGoogleBookId(id) {
        return FallbackBook(id), false;
      }
      match outcome
      case Ok(data) =>
        cache := cache[key := CacheEntry(BookRecord(data), now)];
        return data, true;
      case Err(_, _, _) =>
        return FallbackBook(id), true;
    }
  }
}
