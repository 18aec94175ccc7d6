/** Rendering and caching pages (pkg/services/template_renderer.go), and serving cached ones
    (pkg/middleware/cache.go). Templates are a parameter; header names are in canonical form. */
module PageCache {
  import opened CacheKeys
  import opened Common

  /** An http.Header. Set and Add leave at least one value under every name. */
  type Headers = h: map<string, seq<string>> | forall k | k in h :: h[k] != []

  datatype CachedPage = CachedPage(url: string, html: string, status: int, headers: map<string, string>)

  /** What the shared cache holds: pages, and the data of other groups. */
  datatype Value = PageData(page: CachedPage) | OtherData

  const PAGE_GROUP := "page"
  const HTML_TYPE := ("Content-Type", "text/html; charset=UTF-8")

  /** The HTMX response instructions, as the headers they set. */
  datatype Htmx = NoHtmx | Htmx(headers: map<string, string>, noContent: bool)

  datatype Page = Page(name: string, status: int, headers: map<string, string>, htmx: Htmx, cached: bool, isAuth: bool)

  /** What comes in: `headers` are the response headers set before it is handled. */
  datatype Request = Request(verb: string, url: string, authenticated: bool, headers: Headers)

  datatype Response = Response(status: int, body: string, headers: Headers)

  class Context {
    const verb: string
    const url: string
    const authenticated: bool
    var status: int
    var headers: Headers
    var body: Option<string>

    constructor (verb: string, url: string, authenticated: bool, headers: Headers)
      ensures this.verb == verb && this.url == url && this.authenticated == authenticated
      ensures this.headers == headers && body == None
    {
      this.verb, this.url, this.authenticated, this.headers := verb, url, authenticated, headers;
      status, body := 200, None;
    }

    /** The request, with the response headers set so far. */
    function Incoming(): Request
      reads this
    {
      Request(verb, url, authenticated, headers)
    }

    predicate Answered(r: Response)
      reads this
    {
      status == r.status && body == Some(r.body) && headers == r.headers
    }

    /** echo's HTMLBlob */
    method HTMLBlob(status: int, html: string)
      modifies this
      ensures this.status == status && body == Some(html) && headers == old(headers)[HTML_TYPE.0 := [HTML_TYPE.1]]
    {
      this.status, body, headers := status, Some(html), headers[HTML_TYPE.0 := [HTML_TYPE.1]];
    }

    /** Header().Set for every entry, in any order of the map range. */
    method SetHeaders(given: map<string, string>)
      modifies this`headers
      ensures headers == WithHeaders(old(headers), given)
    {
      var pending := given.Keys;
      ghost var done: map<string, string> := map[];
      assert WithHeaders(headers, done) == headers;
      while pending != {}
        invariant pending !! done.Keys && pending + done.Keys == given.Keys
        invariant forall k | k in done :: done[k] == given[k]
        invariant headers == WithHeaders(old(headers), done)
      {
        var k :| k in pending;
        SetOne(old(headers), done, k, given[k]);
        headers := headers[k := [given[k]]];
        done := done[k := given[k]];
        pending := pending - {k};
      }
      assert done == given;
    }
  }

  lemma SetOne(headers: Headers, given: map<string, string>, name: string, value: string)
    ensures WithHeaders(headers, given[name := value]) == WithHeaders(headers, given)[name := [value]]
  {
  }

  function WithHeaders(headers: Headers, given: map<string, string>): Headers {
    map k | k in headers.Keys + given.Keys :: if k in given then [given[k]] else headers[k]
  }

  function FirstValues(headers: Headers): map<string, string>
  {
    map k | k in headers :: headers[k][0]
  }

  /** Status and headers of a page just before its body is written. */
  function HeadersOf(headers: Headers, page: Page): Headers {
    var set1 := WithHeaders(headers, page.headers);
    if page.htmx.Htmx? then WithHeaders(set1, page.htmx.headers) else set1
  }

  function StatusOf(page: Page): int {
    if page.htmx.Htmx? && page.htmx.noContent then 204 else page.status
  }

  /** The response to a request for which the page was rendered as `html`. */
  function ResponseTo(headers: Headers, page: Page, html: string): Response {
    Response(StatusOf(page), html, HeadersOf(headers, page)[HTML_TYPE.0 := [HTML_TYPE.1]])
  }

  /** The response in its parts: the status of the page unless HTMX asks for no content; each header from the
      HTMX instructions, else from the page, else as it was; and the content type of HTML. */
  lemma ResponseParts(headers: Headers, page: Page, html: string)
    ensures var r := ResponseTo(headers, page, html);
            && r.status == (if page.htmx.Htmx? && page.htmx.noContent then 204 else page.status)
            && r.body == html
            && r.headers.Keys == headers.Keys + page.headers.Keys + {"Content-Type"}
                                 + (if page.htmx.Htmx? then page.htmx.headers.Keys else {})
            && r.headers["Content-Type"] == ["text/html; charset=UTF-8"]
            && forall k | k in r.headers && k != "Content-Type" ::
                 r.headers[k] ==
                   if page.htmx.Htmx? && k in page.htmx.headers then [page.htmx.headers[k]]
                   else if k in page.headers then [page.headers[k]]
                   else headers[k]
  {
    WithHeadersIs(headers, page.headers);
    if page.htmx.Htmx? {
      WithHeadersIs(WithHeaders(headers, page.headers), page.htmx.headers);
    }
  }

  lemma WithHeadersIs(headers: Headers, given: map<string, string>)
    ensures WithHeaders(headers, given).Keys == headers.Keys + given.Keys
    ensures forall k | k in WithHeaders(headers, given) ::
              WithHeaders(headers, given)[k] == if k in given then [given[k]] else headers[k]
  {
  }

  /** What cachePage stores: everything but the Content-Type that HTMLBlob adds after it. */
  function SnapshotOf(url: string, headers: Headers, page: Page, html: string): CachedPage {
    CachedPage(url, html, StatusOf(page), FirstValues(HeadersOf(headers, page)))
  }

  /** The response made of a cached page. */
  function Replay(page: CachedPage, headers: Headers): Response {
    Response(page.status, page.html, WithHeaders(headers, page.headers)[HTML_TYPE.0 := [HTML_TYPE.1]])
  }

  /** Same status, same body, of every header the first value and so exactly those that had a single one,
      and beyond the headers of the original only what the new request had already. */
  ghost predicate Replays(replayed: Response, original: Response, headers: Headers) {
    && replayed.status == original.status && replayed.body == original.body
    && (forall k | k in original.headers ::
          && k in replayed.headers && replayed.headers[k] == [original.headers[k][0]]
          && (replayed.headers[k] == original.headers[k] <==> |original.headers[k]| == 1))
    && (forall k | k in replayed.headers && k !in original.headers ::
          k in headers && replayed.headers[k] == headers[k])
  }

  class TemplateRenderer {
    var cache: map<string, Value>

    constructor ()
      ensures cache == map[]
    {
      cache := map[];
    }

    /** `html` is what the templates produce, None an error; `stored` is the cache's verdict on Save. */
    method RenderPage(ctx: Context, page: Page, html: Option<string>, stored: bool) returns (ok: bool)
      modifies this, ctx
      ensures ok <==> page.name != "" && html.Some?
      ensures !ok ==> ctx.headers == old(ctx.headers) && ctx.body == old(ctx.body)
      ensures ok ==> ctx.Answered(ResponseTo(old(ctx.headers), page, html.value))
      ensures cache == Step(old(cache), Rendered(old(ctx.Incoming()), page, html, stored))
      ensures cache == if ok && page.cached && !page.isAuth && stored && ctx.url != ""
                     then old(cache)[CacheKey(PAGE_GROUP, ctx.url) :=
                                       PageData(SnapshotOf(ctx.url, old(ctx.headers), page, html.value))]
                     else old(cache)
    {
      if page.name == "" {
        return false;
      }
      if html.None? {
        return false;
      }
      ctx.status := page.status;
      ctx.SetHeaders(page.headers);
      if page.htmx.Htmx? {
        ctx.SetHeaders(page.htmx.headers);
        if page.htmx.noContent {
          ctx.status := 204;
        }
      }
      CachePage(ctx, page, html.value, stored);
      ctx.HTMLBlob(ctx.status, html.value);
      return true;
    }

    method CachePage(ctx: Context, page: Page, html: string, stored: bool)
      modifies this
      ensures cache == if page.cached && !page.isAuth && stored && ctx.url != ""
              then old(cache)[CacheKey(PAGE_GROUP, ctx.url) :=
                                PageData(CachedPage(ctx.url, html, ctx.status, FirstValues(ctx.headers)))]
              else old(cache)
    {
      if !page.cached || page.isAuth {
        return;
      }
      var key := ctx.url;
      var cp := CachedPage(key, html, ctx.status, FirstValues(ctx.headers));
      if key != "" && stored { // Save refuses an empty key
        cache := cache[CacheKey(PAGE_GROUP, key) := PageData(cp)];
      }
    }

    /** The type assertion to a cached page must not fail. */
    method GetCachedPage(url: string) returns (page: Option<CachedPage>)
      requires CacheKey(PAGE_GROUP, url) in cache ==> cache[CacheKey(PAGE_GROUP, url)].PageData?
      ensures page == if url != "" && CacheKey(PAGE_GROUP, url) in cache
                      then Some(cache[CacheKey(PAGE_GROUP, url)].page) else None
    {
      if url == "" || CacheKey(PAGE_GROUP, url) !in cache {
        return None;
      }
      return Some(cache[CacheKey(PAGE_GROUP, url)].page);
    }
  }

  /** What the middleware does with a request. */
  datatype Verdict = Next | Served

  /** What the cache answers to a request. */
  function Answer(cache: map<string, Value>, r: Request): Option<Response> {
    var key := CacheKey(PAGE_GROUP, r.url);
    if r.verb == "GET" && !r.authenticated && r.url != "" && key in cache && cache[key].PageData?
    then Some(Replay(cache[key].page, r.headers)) else None
  }

  /** Serves what the cache answers; a request passed on is untouched. */
  method ServeCachedPage(t: TemplateRenderer, ctx: Context) returns (verdict: Verdict)
    requires CacheKey(PAGE_GROUP, ctx.url) in t.cache ==> t.cache[CacheKey(PAGE_GROUP, ctx.url)].PageData?
    modifies ctx
    ensures verdict.Served? <==> Answer(t.cache, old(ctx.Incoming())).Some?
    ensures verdict.Served? <==>
              ctx.verb == "GET" && !ctx.authenticated && ctx.url != "" && CacheKey(PAGE_GROUP, ctx.url) in t.cache
    ensures verdict.Served? ==>
              var page := t.cache[CacheKey(PAGE_GROUP, ctx.url)].page;
              ctx.status == page.status && ctx.body == Some(page.html)
    ensures verdict.Next? ==>
              ctx.Incoming() == old(ctx.Incoming()) && ctx.status == old(ctx.status) && ctx.body == old(ctx.body)
    ensures verdict.Served? ==> ctx.Answered(Answer(t.cache, old(ctx.Incoming())).value)
  {
    if ctx.verb != "GET" {
      return Next;
    }
    if ctx.authenticated {
      return Next;
    }
    var page := t.GetCachedPage(ctx.url);
    if page.None? {
      return Next;
    }
    ctx.SetHeaders(page.value.headers);
    ctx.HTMLBlob(page.value.status, page.value.html);
    return Served;
  }

  /** What was stored of a response replays it. */
  lemma HitReplaysTheResponse(url: string, before: Headers, page: Page, html: string, now: Headers)
    ensures Replays(Replay(SnapshotOf(url, before, page, html), now), ResponseTo(before, page, html), now)
  {
    FirstValuesReplay(HeadersOf(before, page), now);
  }

  lemma FirstValuesReplay(headers: Headers, now: Headers)
    ensures var replayed := WithHeaders(now, FirstValues(headers));
            && (forall k | k in headers ::
                  k in replayed && replayed[k] == [headers[k][0]] && (replayed[k] == headers[k] <==> |headers[k]| == 1))
            && (forall k | k in replayed && k !in headers :: k in now && replayed[k] == now[k])
  {
    var replayed := WithHeaders(now, FirstValues(headers));
    forall k | k in headers
      ensures k in replayed && replayed[k] == [headers[k][0]] && (replayed[k] == headers[k] <==> |headers[k]| == 1)
    {
      assert replayed[k] == [headers[k][0]];
    }
  }

  // ------------------------------------------------------------------ whole runs

  /** What happens: a page is rendered for a request, a request meets the middleware, data is stored
      under another group, or an entry is evicted, expires or is flushed. */
  datatype Event =
    | Rendered(request: Request, page: Page, html: Option<string>, stored: bool)
    | Requested(request: Request)
    | OtherSet(group: string, key: string)
    | Dropped(key: string)

  /** page.New sets IsAuth exactly for an authenticated request; the other users of the cache keep to
      colon-free, non-empty group names different from "page". */
  predicate WellBehaved(e: Event) {
    match e
    case Rendered(request, page, _, _) => page.isAuth == request.authenticated
    case OtherSet(group, _) => group != "" && ':' !in group && group != PAGE_GROUP
    case _ => true
  }

  /** The page was rendered, is to be cached, and the cache took it. */
  predicate Saves(e: Event) {
    && e.Rendered? && e.page.name != "" && e.html.Some?
    && e.page.cached && !e.page.isAuth && e.stored && e.request.url != ""
  }

  function Saved(e: Event): CachedPage
    requires Saves(e)
  {
    SnapshotOf(e.request.url, e.request.headers, e.page, e.html.value)
  }

  /** The response to the request for which the event rendered a page. */
  function ResponseOf(e: Event): Response
    requires e.Rendered? && e.html.Some?
  {
    ResponseTo(e.request.headers, e.page, e.html.value)
  }

  function Step(cache: map<string, Value>, e: Event): map<string, Value> {
    match e
    case Rendered(request, _, _, _) =>
      if Saves(e) then cache[CacheKey(PAGE_GROUP, request.url) := PageData(Saved(e))] else cache
    case Requested(_) => cache
    case OtherSet(group, key) => cache[CacheKey(group, key) := OtherData]
    case Dropped(key) => cache - {key}
  }

  function After(events: seq<Event>): map<string, Value> {
    if events == [] then map[] else Step(After(events[..|events| - 1]), events[|events| - 1])
  }

  /** The k-th event saved a page for `url`. */
  predicate SavesFor(events: seq<Event>, url: string, k: int) {
    0 <= k < |events| && Saves(events[k]) && events[k].request.url == url
  }

  /** `k` is the latest successful save for `url`, and its entry has not been dropped since. */
  ghost predicate Standing(events: seq<Event>, url: string, k: int) {
    && SavesFor(events, url, k)
    && forall j | k < j < |events| :: !SavesFor(events, url, j) && events[j] != Dropped(CacheKey(PAGE_GROUP, url))
  }

  /** Over every run: the cache holds an entry for a URL exactly while a save for that URL stands, and
      the entry is the page of that save. */
  lemma {:induction false} PagesAreLatestSaves(events: seq<Event>, url: string)
    requires forall e | e in events :: WellBehaved(e)
    ensures CacheKey(PAGE_GROUP, url) in After(events) <==> exists k :: Standing(events, url, k)
    ensures forall k | Standing(events, url, k) ::
              CacheKey(PAGE_GROUP, url) in After(events)
              && After(events)[CacheKey(PAGE_GROUP, url)] == PageData(Saved(events[k]))
  {
    if events != [] {
      var n := |events| - 1;
      var front, e := events[..n], events[n];
      assert e in events && forall f | f in front :: f in events;
      PagesAreLatestSaves(front, url);
      if SavesFor(events, url, n) {
        assert Standing(events, url, n);
      } else {
        OtherEvents(After(front), e, url);
        forall k
          ensures Standing(events, url, k) <==> Standing(front, url, k) && e != Dropped(CacheKey(PAGE_GROUP, url))
          ensures Standing(front, url, k) ==> events[k] == front[k]
        {
          StandingLonger(events, url, k);
        }
      }
    }
  }

  lemma StandingLonger(events: seq<Event>, url: string, k: int)
    requires events != [] && !SavesFor(events, url, |events| - 1)
    ensures var front, e := events[..|events| - 1], events[|events| - 1];
            && (Standing(events, url, k) <==> Standing(front, url, k) && e != Dropped(CacheKey(PAGE_GROUP, url)))
            && (Standing(front, url, k) ==> events[k] == front[k])
  {
    var n := |events| - 1;
    assert forall j | 0 <= j < n :: events[..n][j] == events[j];
    assert forall j | 0 <= j < n :: SavesFor(events[..n], url, j) == SavesFor(events, url, j);
    if Standing(events, url, k) {
      assert k < n && events[n] != Dropped(CacheKey(PAGE_GROUP, url));
    }
  }

  /** An event other than a save for `url` leaves the entry of `url` as it is, or drops it. */
  lemma OtherEvents(cache: map<string, Value>, e: Event, url: string)
    requires WellBehaved(e) && !(Saves(e) && e.request.url == url)
    ensures var key := CacheKey(PAGE_GROUP, url);
            && (key in Step(cache, e) <==> key in cache && e != Dropped(key))
            && (key in Step(cache, e) ==> Step(cache, e)[key] == cache[key])
  {
    assert ':' !in PAGE_GROUP;
    match e
    case Rendered(request, _, _, _) => KeyIsInjective(PAGE_GROUP, url, PAGE_GROUP, request.url);
    case OtherSet(group, key) => KeyIsInjective(PAGE_GROUP, url, group, key);
    case _ =>
  }

  /** Over every run: a request is served from the cache if and only if it is an unauthenticated GET for
      whose URL a save stands. The response then replays the one that was saved, which was rendered for
      a request without an authenticated user. */
  lemma ServedIsLatestSave(events: seq<Event>, i: nat)
    requires forall e | e in events :: WellBehaved(e)
    requires i < |events| && events[i].Requested?
    ensures var r, before := events[i].request, events[..i];
            var answer := Answer(After(before), r);
            && (answer.Some? <==> r.verb == "GET" && !r.authenticated && exists k :: Standing(before, r.url, k))
            && forall k | answer.Some? && Standing(before, r.url, k) ::
                 && !events[k].request.authenticated
                 && Replays(answer.value, ResponseOf(events[k]), r.headers)
  {
    var r, before := events[i].request, events[..i];
    assert forall e | e in before :: e in events;
    PagesAreLatestSaves(before, r.url);
    forall k | Standing(before, r.url, k)
      ensures r.url != "" && !events[k].request.authenticated
      ensures Replays(Replay(Saved(events[k]), r.headers), ResponseOf(events[k]), r.headers)
    {
      assert before[k] == events[k] && events[k] in events;
      var e := events[k];
      HitReplaysTheResponse(e.request.url, e.request.headers, e.page, e.html.value, r.headers);
    }
  }

  /** The middleware in front of the handlers; `events` is what has happened so far. */
  class Site {
    const renderer: TemplateRenderer
    ghost var events: seq<Event>

    ghost predicate Valid()
      reads this, renderer
    {
      renderer.cache == After(events) && forall e | e in events :: WellBehaved(e)
    }

    constructor ()
      ensures Valid() && fresh(renderer) && events == []
    {
      renderer := new TemplateRenderer();
      events := [];
    }

    /** A request meets the middleware, which serves it or passes it on to a handler that renders `page`. */
    method Handle(ctx: Context, page: Page, html: Option<string>, stored: bool) returns (served: bool)
      requires Valid() && page.isAuth == ctx.authenticated
      modifies this, renderer, ctx
      ensures Valid()
      ensures var request := old(ctx.Incoming());
              && events == old(events) + [Requested(request)]
                           + (if served then [] else [Rendered(request, page, html, stored)])
              && var answer := Answer(After(old(events)), request);
                 && (served <==> answer.Some?)
                 && (served ==> ctx.Answered(answer.value))
                 && (!served && page.name != "" && html.Some? ==>
                     ctx.Answered(ResponseTo(request.headers, page, html.value)))
    {
      ghost var request := ctx.Incoming();
      PagesAreLatestSaves(events, ctx.url);
      var verdict := ServeCachedPage(renderer, ctx);
      Happen(Requested(request));
      if verdict.Served? {
        return true;
      }
      var ok := renderer.RenderPage(ctx, page, html, stored);
      Happen(Rendered(request, page, html, stored));
      return false;
    }

    /** An entry is evicted, expires or is flushed, or another user of the cache stores data. */
    method Elsewhere(e: Event)
      requires Valid() && WellBehaved(e) && (e.Dropped? || e.OtherSet?)
      modifies this, renderer
      ensures Valid() && events == old(events) + [e]
    {
      renderer.cache := Step(renderer.cache, e);
      Happen(e);
    }

    /** Adds to the history an event that the cache has gone through. */
    ghost method Happen(e: Event)
      requires WellBehaved(e) && renderer.cache == Step(After(events), e) && forall f | f in events :: WellBehaved(f)
      modifies this`events
      ensures Valid() && events == old(events) + [e]
    {
      assert (events + [e])[..|events|] == events;
      events := events + [e];
    }
  }
}
