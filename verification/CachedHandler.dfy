/**
 The caching wrapper around a feed handler, over the two-tier cache. The raw feed is cached under its
 path and shared by every request; query parameters are applied to a copy for each response.
 */
module CachedHandler {
  import opened Wrappers
  import opened MonotoneClock
  import opened TwoTierCache
  import opened FeedPipeline

  class Feed {
    var title: string
    var link: string
    var description: string
    var items: Slice

    ghost predicate Valid()
      reads this
    {
      items.Valid()
    }

    ghost function View(): FeedView
      requires Valid()
      reads this, items.backing
    {
      FeedView(title, link, description, items.View())
    }
  }

  datatype FeedView = FeedView(title: string, link: string, description: string, items: seq<Item>)

  /** The cache holds untyped values; anything but a non-nil feed is treated as a miss. */
  datatype Stored = FeedValue(feed: Feed) | Unusable

  /** What the wrapped handler returns if it is called. */
  datatype Fetch = Fetched(feed: Feed) | Failed(message: string, code: Option<int>)

  datatype Request = Request(path: string, query: Query, format: string, bypass: bool, ifNoneMatch: string)

  datatype Response = Response(status: int, xCache: string, etag: string, contentType: string, body: string)

  /** A request served: the feed its handler returns if called, whether it was called, and the
      instants the exchange began and ended at. `lag` is the longest wait of a promotion by then. `body`
      is the body that the response carries, or stands for if it says that the client has it. */
  datatype Exchange = Exchange(
    request: Request,
    view: Option<FeedView>,
    called: bool,
    begin: int,
    end: int,
    lag: nat,
    body: Option<string>)

  /** A feed the handler returned for a path, and the deadline it was cached with. */
  datatype Snapshot = Snapshot(path: string, view: FeedView, exp: int)

  function DefaultKey(path: string): (key: string)
    ensures |key| == 5 + |path| && key[..5] == "feed:" && key[5..] == path
  {
    "feed:" + path
  }

  predicate ShouldBypassPath(path: string) {
    path == "/" || exists prefix :: prefix in ["/robots.txt", "/favicon.ico", "/logo.png", "/api/"] && prefix <= path
  }

  predicate ShouldCache(request: Request) {
    !request.bypass && !ShouldBypassPath(request.path)
  }

  /** The client does not ask to bypass the cache, and the path is neither the root nor one of the
      site's own. */
  ghost predicate Cacheable(request: Request) {
    && !request.bypass && request.path != "/"
    && !("/robots.txt" <= request.path) && !("/favicon.ico" <= request.path)
    && !("/logo.png" <= request.path) && !("/api/" <= request.path)
  }

  lemma CacheableIff(request: Request)
    ensures ShouldCache(request) <==> Cacheable(request)
  {
    var list := ["/robots.txt", "/favicon.ico", "/logo.png", "/api/"];
    assert list[0] in list && list[1] in list && list[2] in list && list[3] in list;
  }

  /** The handler's error is passed on with its code, or as an internal error. */
  ghost predicate IsErrorOf(fetch: Fetch, response: Response) {
    && fetch.Failed?
    && response == Response(
      match fetch.code { case Some(code) => code case None => 500 }, "", "", "application/json", fetch.message)
  }

  ghost predicate Injective(f: string -> string) {
    forall a, b :: f(a) == f(b) ==> a == b
  }

  class Handler {
    const cache: BadgerCache<Stored>
    const clock: Clock
    const ttl: int
    const etagEnabled: bool
    const serialize: (FeedView, string) -> Result<(string, string), string>
    const digest: string -> string

    /** Every feed and item array reachable from the cache. */
    ghost var shared: set<object>
    /** Every feed the handler returned and this wrapper cached. */
    ghost var stored: set<Snapshot>

    ghost predicate Valid()
      reads this, cache, cache.memory, cache.clock, shared
    {
      && cache.Valid() && cache.clock == clock
      && this !in shared && cache !in shared && cache.memory !in shared && clock !in shared
      && forall w :: w in cache.ledger && w.value.Some? && w.value.value.FeedValue? ==>
        EntryOk(w.key, w.value.value.feed, w.exp)
    }

    ghost predicate EntryOk(key: string, feed: Feed, exp: int)
      reads this, shared
    {
      && feed in shared && feed.Valid() && feed.items.backing in shared
      && |key| >= 5 && key == DefaultKey(key[5..])
      && Snapshot(key[5..], feed.View(), exp) in stored
    }

    constructor (cache: BadgerCache<Stored>, ttl: int, etagEnabled: bool,
                 serialize: (FeedView, string) -> Result<(string, string), string>, digest: string -> string)
      requires cache.Valid() && cache.ledger == {}
      ensures Valid() && stored == {} && shared == {}
      ensures this.cache == cache && this.clock == cache.clock && this.ttl == ttl && this.etagEnabled == etagEnabled
      ensures this.serialize == serialize && this.digest == digest
    {
      this.cache := cache;
      this.clock := cache.clock;
      this.ttl := ttl;
      this.etagEnabled := etagEnabled;
      this.serialize := serialize;
      this.digest := digest;
      shared := {};
      stored := {};
    }

    function GenerateETag(body: string): string {
      if body == "" then "" else "\"" + digest(body) + "\""
    }

    /** The request is answered with `body`, the serialization of what the pipeline makes of `feed`, or
        told that the copy it holds is that body. The tag of a body is its digest in quotes; an empty body
        has none. */
    ghost predicate AnswersWith(request: Request, feed: FeedView, now: int, body: string, response: Response) {
      exists out, contentType ::
        && Processed(request.query, now, feed.items, out)
        && serialize(feed.(items := out), request.format) == Ok((body, contentType))
        && Tagged(request, body, contentType, response)
    }

    ghost predicate Tagged(request: Request, body: string, contentType: string, response: Response) {
      var tag := if etagEnabled && body != "" then "\"" + digest(body) + "\"" else "";
      if etagEnabled && request.ifNoneMatch != "" && request.ifNoneMatch == tag
      then response == Response(304, response.xCache, tag, "", "")
      else response == Response(200, response.xCache, tag, contentType, body)
    }

    /** The request's feed could not be serialized. */
    ghost predicate FailsToSerialize(request: Request, feed: FeedView, now: int, response: Response) {
      exists out, message ::
        && Processed(request.query, now, feed.items, out)
        && serialize(feed.(items := out), request.format) == Err(message)
        && response == Response(500, "", "", "application/json", message)
    }

    /** The request is answered with a body, or fails without one. */
    ghost predicate Outcome(request: Request, feed: FeedView, now: int, body: Option<string>, response: Response) {
      match body
      case Some(b) => AnswersWith(request, feed, now, b, response)
      case None => FailsToSerialize(request, feed, now, response)
    }

    /** From a feed to a response; the feed itself is only read. */
    method Respond(request: Request, feed: Feed, xCache: string)
      returns (response: Response, ghost sent: Option<string>)
      requires Valid() && feed.Valid()
      modifies clock
      ensures Valid() && old(clock.now) <= clock.now
      ensures Outcome(request, feed.View(), clock.now, sent, response)
      ensures sent.Some? ==> response.xCache == xCache
    {
      ghost var view := feed.View();
      var processed := ProcessFeed(request.query, feed.items, clock);
      cache.StaysValid();
      var out := processed.View();
      var result := serialize(FeedView(feed.title, feed.link, feed.description, out), request.format);
      assert view.(items := out) == FeedView(feed.title, feed.link, feed.description, out);
      if result.Err? {
        sent := None;
        response := Response(500, "", "", "application/json", result.error);
        assert FailsToSerialize(request, view, clock.now, response);
        return;
      }
      var (body, contentType) := result.value;
      sent := Some(body);
      var etag := "";
      if etagEnabled {
        etag := GenerateETag(body);
        if request.ifNoneMatch != "" && request.ifNoneMatch == etag {
          response := Response(304, xCache, etag, "", "");
          assert Tagged(request, body, contentType, response);
          return;
        }
      }
      response := Response(200, xCache, etag, contentType, body);
      assert Tagged(request, body, contentType, response);
    }

    /** The cache stands for a feed under the request's path that is still live at `now`. */
    ghost predicate LiveAt(request: Request, model: map<string, ColdEntry<Stored>>, now: int) {
      var key := DefaultKey(request.path);
      && key in model && model[key].value.Some? && model[key].value.value.FeedValue?
      && now < model[key].deadline
    }

    /** Nothing but feeds was ever cached under the request's path. */
    ghost predicate OnlyFeeds(request: Request, ledger: set<Written<Stored>>) {
      forall w :: w in ledger && w.key == DefaultKey(request.path) ==> w.value.Some? && w.value.value.FeedValue?
    }

    /** A hit is a feed the handler returned for this path, unchanged since, whose deadline, but for the
        wait of a promotion, has not passed. */
    method Lookup(request: Request) returns (cached: Option<Feed>, ghost snapshot: Snapshot)
      requires Valid()
      modifies cache`cold, cache`promotions, cache`readings, cache.memory, clock
      ensures Valid() && old(clock.now) <= clock.now
      ensures cached.Some? ==>
        && cached.value.Valid() && snapshot == Snapshot(request.path, cached.value.View(), snapshot.exp)
        && snapshot in stored && old(clock.now) <= snapshot.exp + cache.lag
      ensures cached.None? && OnlyFeeds(request, cache.ledger) ==> !LiveAt(request, cache.model, clock.now)
    {
      var key := DefaultKey(request.path);
      var value, ok := cache.Get(key);
      if !ok || value.None? || value.value.Unusable? {
        cached := None;
        snapshot := *;
        return;
      }
      var feed := value.value.feed;
      ghost var exp :| Written(key, value, exp) in cache.ledger && old(clock.now) <= exp + cache.lag;
      assert EntryOk(key, feed, exp);
      cached := Some(feed);
      snapshot := Snapshot(request.path, feed.View(), exp);
    }

    method Remember(request: Request, feed: Feed) returns (ghost snapshot: Snapshot)
      requires Valid() && feed.Valid()
      modifies this`shared, this`stored
      modifies cache`cold, cache`model, cache`tainted, cache`ledger, cache.memory, clock
      ensures Valid() && old(clock.now) <= clock.now
      ensures snapshot == Snapshot(request.path, feed.View(), snapshot.exp) && stored == old(stored) + {snapshot}
      ensures old(clock.now) + ttl <= snapshot.exp <= clock.now + ttl
      ensures StandsFor(request, feed, snapshot.exp)
    {
      var key := DefaultKey(request.path);
      cache.Set(key, Some(FeedValue(feed)), ttl);
      snapshot := Snapshot(request.path, feed.View(), cache.model[key].exp);
      Share(key, feed, snapshot);
    }

    /** The feed just stored joins the ones that the cache reaches. */
    ghost method Share(key: string, feed: Feed, snapshot: Snapshot)
      requires cache.Valid() && cache.clock == clock && feed.Valid()
      requires this !in shared && cache !in shared && cache.memory !in shared && clock !in shared
      requires key == DefaultKey(snapshot.path) && snapshot.view == feed.View()
      requires forall w :: w in cache.ledger && w.value.Some? && w.value.value.FeedValue? ==>
        || w == Written(key, Some(FeedValue(feed)), snapshot.exp)
        || EntryOk(w.key, w.value.value.feed, w.exp)
      modifies this`shared, this`stored
      ensures Valid() && stored == old(stored) + {snapshot}
    {
      assert key[5..] == snapshot.path;
      shared := shared + {feed, feed.items.backing};
      stored := stored + {snapshot};
      forall w | w in cache.ledger && w.value.Some? && w.value.value.FeedValue?
        ensures EntryOk(w.key, w.value.value.feed, w.exp)
      {
        assert w == Written(key, Some(FeedValue(feed)), snapshot.exp) || old(EntryOk(w.key, w.value.value.feed, w.exp));
      }
    }

    /** The cache stands for this feed under the request's path, with this deadline. */
    ghost predicate StandsFor(request: Request, feed: Feed, exp: int)
      reads cache
    {
      var key := DefaultKey(request.path);
      key in cache.model && cache.model[key].value == Some(FeedValue(feed)) && cache.model[key].exp == exp
    }

    /** `response` answers `request` from `feed`, as processed at an instant of the given interval. */
    ghost predicate Explains(request: Request, feed: FeedView, begin: int, end: int,
                             body: Option<string>, response: Response)
    {
      exists now :: begin <= now <= end && Outcome(request, feed, now, body, response)
    }

    /**
     Serves one request. Neither the feed a hit shares nor the one the handler returned is ever
     written: only the cache's own table, the clock and new objects change.
     */
    method Serve(request: Request, fetch: Fetch)
      returns (response: Response, called: bool, ghost snapshot: Snapshot, ghost sent: Option<string>)
      requires Valid()
      requires fetch.Fetched? ==> fetch.feed.Valid()
      modifies this`shared, this`stored
      modifies cache`cold, cache`promotions, cache`readings, cache`model, cache`tainted, cache`ledger
      modifies cache.memory, clock
      ensures Valid() && old(clock.now) <= clock.now
      ensures !called ==>
        && stored == old(stored) && snapshot in stored && snapshot.path == request.path
        && old(clock.now) <= snapshot.exp + cache.lag
        && Explains(request, snapshot.view, old(clock.now), clock.now, sent, response)
      ensures called && fetch.Fetched? ==>
        && Explains(request, fetch.feed.View(), old(clock.now), clock.now, sent, response)
        && snapshot.path == request.path && snapshot.view == fetch.feed.View()
        && stored == if Cacheable(request) then old(stored) + {snapshot} else old(stored)
      ensures called && OnlyFeeds(request, old(cache.ledger)) ==> !LiveAt(request, old(cache.model), clock.now)
      ensures called && fetch.Fetched? && Cacheable(request) ==>
        && StandsFor(request, fetch.feed, snapshot.exp)
        && old(clock.now) + ttl <= snapshot.exp <= clock.now + ttl
      ensures called && fetch.Failed? ==> stored == old(stored) && IsErrorOf(fetch, response) && sent.None?
      ensures sent.Some? ==> response.xCache == if called then "MISS" else "HIT"
    {
      CacheableIff(request);
      hide Outcome, IsErrorOf, ShouldCache, Cacheable, OnlyFeeds;
      var cached;
      cached, snapshot := Lookup(request);
      if cached.Some? {
        called := false;
        response, sent := Respond(request, cached.value, "HIT");
        return;
      }
      called := true;
      if fetch.Failed? {
        sent := None;
        response := ErrorResponse(fetch);
        return;
      }
      snapshot := Snapshot(request.path, fetch.feed.View(), 0);
      if ShouldCache(request) {
        snapshot := Remember(request, fetch.feed);
      }
      response, sent := Respond(request, fetch.feed, "MISS");
    }

    function ErrorResponse(fetch: Fetch): (response: Response)
      requires fetch.Failed?
      ensures IsErrorOf(fetch, response)
    {
      Response(if fetch.code.Some? then fetch.code.value else 500, "", "", "application/json", fetch.message)
    }

    /** The exchange cached `snapshot`: its handler returned that feed for that path, with a deadline
        `ttl` after some instant of the exchange. */
    ghost predicate Cached(e: Exchange, snapshot: Snapshot) {
      && e.called && Cacheable(e.request) && e.request.path == snapshot.path && e.view == Some(snapshot.view)
      && e.begin + ttl <= snapshot.exp <= e.end + ttl
    }

    ghost predicate CameFrom(log: seq<Exchange>, snapshot: Snapshot) {
      exists j :: 0 <= j < |log| && Cached(log[j], snapshot)
    }

    /** `response` answers exchange `e` with the feed that `source` got from the handler for the same
        path: `e` itself, or an earlier exchange that cached it not longer than `ttl`, and the wait of one
        promotion, before `e` began. */
    ghost predicate AnsweredFrom(source: Exchange, e: Exchange, own: bool, response: Response) {
      && source.called && source.view.Some? && source.request.path == e.request.path
      && (!own ==> Cacheable(source.request) && e.begin <= source.end + ttl + e.lag)
      && Explains(e.request, source.view.value, e.begin, e.end, e.body, response)
      && (e.body.Some? ==> response.xCache == if own then "MISS" else "HIT")
    }

    ghost predicate Explained(log: seq<Exchange>, i: nat, response: Response) {
      i < |log| && exists j :: 0 <= j <= i && AnsweredFrom(log[j], log[i], j == i, response)
    }

    ghost predicate Returns(fetch: Fetch, view: Option<FeedView>)
      requires fetch.Fetched? ==> fetch.feed.Valid()
      reads if fetch.Fetched? then {fetch.feed, fetch.feed.items.backing} else {}
    {
      view == if fetch.Fetched? then Some(fetch.feed.View()) else None
    }

    lemma CameLater(log: seq<Exchange>, e: Exchange)
      ensures forall snapshot :: CameFrom(log, snapshot) ==> CameFrom(log + [e], snapshot)
    {
      forall snapshot | CameFrom(log, snapshot) ensures CameFrom(log + [e], snapshot) {
        var j :| 0 <= j < |log| && Cached(log[j], snapshot);
        assert (log + [e])[j] == log[j];
      }
    }

    lemma CameNow(log: seq<Exchange>, e: Exchange, snapshot: Snapshot)
      requires Cached(e, snapshot)
      ensures CameFrom(log + [e], snapshot)
    {
      assert (log + [e])[|log|] == e;
    }

    lemma ExplainedLater(log: seq<Exchange>, e: Exchange, i: nat, response: Response)
      requires Explained(log, i, response)
      ensures Explained(log + [e], i, response)
    {
      var j :| 0 <= j <= i && AnsweredFrom(log[j], log[i], j == i, response);
      assert (log + [e])[j] == log[j] && (log + [e])[i] == log[i];
    }

    /** One exchange after the other, all within the interval. */
    ghost predicate Consecutive(log: seq<Exchange>, begin: int, end: int) {
      && (forall i :: 0 <= i < |log| ==> begin <= log[i].begin <= log[i].end <= end)
      && (forall i, j :: 0 <= i < j < |log| ==> log[i].end <= log[j].begin)
    }

    ghost predicate AllExplained(fetches: seq<Fetch>, responses: seq<Response>, log: seq<Exchange>) {
      && |fetches| == |responses| == |log|
      && forall i :: 0 <= i < |log| ==>
        (IsErrorOf(fetches[i], responses[i]) && log[i].body.None?) || Explained(log, i, responses[i])
    }

    /** What a body that was sent says about its response. */
    lemma BodyIsTagged(log: seq<Exchange>, i: nat, response: Response)
      requires Explained(log, i, response) && log[i].body.Some?
      ensures exists contentType :: Tagged(log[i].request, log[i].body.value, contentType, response)
    {
      var j :| 0 <= j <= i && AnsweredFrom(log[j], log[i], j == i, response);
      var now :| Outcome(log[i].request, log[j].view.value, now, log[i].body, response);
    }

    /**
     With a digest that tells bodies apart, over a whole run: a request that carries the tag of an
     earlier response with a body is told that its copy is good if and only if what it would be sent
     is that very body.
     */
    lemma NotModifiedIffSameBody(fetches: seq<Fetch>, responses: seq<Response>, log: seq<Exchange>, i: nat, j: nat)
      requires AllExplained(fetches, responses, log) && i < |log| && j < |log|
      requires etagEnabled && Injective(digest)
      requires log[i].body.Some? && responses[i].status == 200 && responses[i].body != ""
      requires log[j].body.Some? && log[j].request.ifNoneMatch == responses[i].etag
      ensures responses[j].status == 304 <==> log[j].body.value == responses[i].body
      ensures responses[j].status != 304 ==> responses[j].status == 200 && responses[j].body == log[j].body.value
    {
      BodyIsTagged(log, i, responses[i]);
      BodyIsTagged(log, j, responses[j]);
      QuotedDiffer(digest(log[i].body.value), digest(log[j].body.value));
    }

    /** Two responses with bodies have the same tag if and only if they have the same body. */
    lemma SameTagIffSameBody(fetches: seq<Fetch>, responses: seq<Response>, log: seq<Exchange>, i: nat, j: nat)
      requires AllExplained(fetches, responses, log) && i < |log| && j < |log|
      requires etagEnabled && Injective(digest)
      requires log[i].body.Some? && responses[i].status == 200 && responses[i].body != ""
      requires log[j].body.Some? && responses[j].status == 200 && responses[j].body != ""
      ensures responses[i].etag == responses[j].etag <==> responses[i].body == responses[j].body
    {
      BodyIsTagged(log, i, responses[i]);
      BodyIsTagged(log, j, responses[j]);
      QuotedDiffer(digest(log[i].body.value), digest(log[j].body.value));
    }

    lemma QuotedDiffer(a: string, b: string)
      ensures "\"" + a + "\"" == "\"" + b + "\"" <==> a == b
    {
      assert ("\"" + a + "\"")[1..|a| + 1] == a && ("\"" + b + "\"")[1..|b| + 1] == b;
    }

    lemma NothingYet(begin: int)
      ensures Consecutive([], begin, begin) && AllExplained([], [], [])
    {
    }

    lemma OneMoreConsecutive(log: seq<Exchange>, e: Exchange, begin: int)
      requires Consecutive(log, begin, e.begin) && begin <= e.begin <= e.end
      ensures Consecutive(log + [e], begin, e.end)
    {
    }

    lemma OneMoreExplained(fetches: seq<Fetch>, responses: seq<Response>, log: seq<Exchange>,
                           fetch: Fetch, response: Response, e: Exchange)
      requires AllExplained(fetches, responses, log)
      requires (IsErrorOf(fetch, response) && e.body.None?) || Explained(log + [e], |log|, response)
      ensures AllExplained(fetches + [fetch], responses + [response], log + [e])
    {
      forall k: nat | k < |log| && Explained(log, k, responses[k]) ensures Explained(log + [e], k, responses[k]) {
        ExplainedLater(log, e, k, responses[k]);
      }
    }

    lemma Later(log: seq<Exchange>, begin: int, end: int, later: int)
      requires Consecutive(log, begin, end) && end <= later
      ensures Consecutive(log, begin, later)
    {
    }

    lemma ExplainedByItself(log: seq<Exchange>, e: Exchange, response: Response)
      requires AnsweredFrom(e, e, true, response)
      ensures Explained(log + [e], |log|, response)
    {
      assert (log + [e])[|log|] == e;
    }

    lemma ExplainedByEarlier(log: seq<Exchange>, e: Exchange, snapshot: Snapshot, response: Response)
      requires CameFrom(log, snapshot) && snapshot.path == e.request.path && e.begin <= snapshot.exp + e.lag
      requires Explains(e.request, snapshot.view, e.begin, e.end, e.body, response)
      requires e.body.Some? ==> response.xCache == "HIT"
      ensures Explained(log + [e], |log|, response)
    {
      hide Explains;
      var j :| 0 <= j < |log| && Cached(log[j], snapshot);
      assert (log + [e])[j] == log[j] && (log + [e])[|log|] == e;
      assert AnsweredFrom((log + [e])[j], (log + [e])[|log|], j == |log|, response);
    }

    /** Every feed the wrapper cached came from an exchange of the log. */
    ghost predicate AllCameFrom(log: seq<Exchange>)
      reads this
    {
      forall snapshot :: snapshot in stored ==> CameFrom(log, snapshot)
    }

    lemma NothingStored()
      requires stored == {}
      ensures AllCameFrom([])
    {
    }

    /** One more exchange, after whatever happens before it. */
    method ServeNext(request: Request, fetch: Fetch, ghost view: Option<FeedView>, ghost log: seq<Exchange>)
      returns (response: Response, ghost e: Exchange)
      requires Valid() && AllCameFrom(log)
      requires (fetch.Fetched? ==> fetch.feed.Valid()) && Returns(fetch, view)
      modifies this`shared, this`stored, cache, cache.memory, clock
      ensures Valid() && AllCameFrom(log + [e])
      ensures e.request == request && e.view == view && old(clock.now) <= e.begin <= e.end == clock.now
      ensures (IsErrorOf(fetch, response) && e.body.None?) || Explained(log + [e], |log|, response)
    {
      hide Explains, CameFrom, Explained, Valid;
      Background();
      ghost var begin := clock.now;
      var called;
      ghost var snapshot, sent;
      response, called, snapshot, sent := Serve(request, fetch);
      e := Exchange(request, view, called, begin, clock.now, cache.lag, sent);
      CameLater(log, e);
      if !called {
        ExplainedByEarlier(log, e, snapshot, response);
      } else if fetch.Fetched? {
        ExplainedByItself(log, e, response);
        if Cacheable(request) {
          CameNow(log, e, snapshot);
        }
      }
    }

    /**
     Over any run of requests from an empty cache, with any time between them, every response is an
     error of the handler or is explained by a feed that the handler returned for the same path: in
     this exchange, or in an earlier one that cached it and ended no more than `ttl`, and the wait of
     one promotion, before this one began. Between requests promotions and cleanups run as they may.
     `views` are those feeds as they were before the run; they are still the same after it.
     */
    method ServeAll(requests: seq<Request>, fetches: seq<Fetch>, ghost views: seq<Option<FeedView>>)
      returns (responses: seq<Response>, ghost log: seq<Exchange>)
      requires Valid() && stored == {} && |requests| == |fetches| == |views|
      requires forall j :: 0 <= j < |fetches| ==>
        (fetches[j].Fetched? ==> fetches[j].feed.Valid()) && Returns(fetches[j], views[j])
      modifies this`shared, this`stored, cache, cache.memory, clock
      ensures Valid() && |responses| == |requests| == |log|
      ensures forall j :: 0 <= j < |fetches| ==>
        (fetches[j].Fetched? ==> fetches[j].feed.Valid()) && Returns(fetches[j], views[j])
      ensures forall i :: 0 <= i < |log| ==> log[i].request == requests[i] && log[i].view == views[i]
      ensures Consecutive(log, old(clock.now), clock.now) && AllExplained(fetches, responses, log)
    {
      hide AllCameFrom, Explained, AllExplained, Consecutive, Valid;
      responses, log := [], [];
      NothingYet(clock.now);
      assert AllCameFrom([]) by {
        NothingStored();
      }
      assert fetches[..0] == [];
      for i := 0 to |requests|
        invariant Valid() && |responses| == |log| == i && old(clock.now) <= clock.now
        invariant forall j :: 0 <= j < |fetches| ==>
          (fetches[j].Fetched? ==> fetches[j].feed.Valid()) && Returns(fetches[j], views[j])
        invariant forall k :: 0 <= k < i ==> log[k].request == requests[k] && log[k].view == views[k]
        invariant AllCameFrom(log)
        invariant Consecutive(log, old(clock.now), clock.now) && AllExplained(fetches[..i], responses, log)
      {
        assert Returns(fetches[i], views[i]);
        ghost var last := clock.now;
        var response, e := ServeNext(requests[i], fetches[i], views[i], log);
        Later(log, old(clock.now), last, e.begin);
        assert fetches[..i + 1] == fetches[..i] + [fetches[i]];
        OneMoreExplained(fetches[..i], responses, log, fetches[i], response, e);
        OneMoreConsecutive(log, e, old(clock.now));
        responses, log := responses + [response], log + [e];
      }
      assert fetches[..|fetches|] == fetches;
    }

    /** What happens between requests: promotions run, in any number and order, and so do cleanups. */
    method Background()
      requires Valid()
      modifies cache`cold, cache`promotions, cache`readings, cache`lag, cache.memory, clock
      ensures Valid() && old(clock.now) <= clock.now
    {
      cache.Background();
    }
  }
}
