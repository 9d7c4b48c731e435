/** The admin-panel service worker as a state machine: the browser's cache
    storage it works on, its four event handlers (install, activate, fetch,
    message) as methods of a class, and the background refresh a cache hit
    starts as a step of its own. Each handler is proved against a pure
    function that says what it answers and what the storage becomes; the
    lemmas at the end relate those functions across several events. */
module AdminWorker {
  import opened AdminPolicy

  datatype Option<T> = None | Some(value: T)

  // ---------------------------------------------------------------------
  // Responses and the network
  // ---------------------------------------------------------------------

  /** A response as the worker sees it. */
  datatype Response = Response(status: int, statusText: string, body: string)

  /** `response.ok`: the status is in the range 200 to 299. */
  predicate IsOk(r: Response) {
    200 <= r.status <= 299
  }

  /** The answer given when neither the cache nor the network can serve. */
  function Unavailable(): (r: Response)
    ensures !IsOk(r) && r.status == 503
  {
    Response(503, "Service Unavailable", "Admin panel temporarily unavailable")
  }

  /** What one `fetch` does: resolve with a response (of any status) or
      reject with a network error. */
  datatype NetOutcome = Fetched(response: Response) | NetError

  /** A fetch that resolved with an ok response. */
  predicate Succeeds(o: NetOutcome) {
    o.Fetched? && IsOk(o.response)
  }

  /** A request: `verb` is `request.method` (`method` is a Dafny keyword). */
  datatype Request = Request(verb: string, url: string)

  /** What the fetch handler does with a request: leave it to the browser,
      or answer it through `respondWith`. */
  datatype FetchReply = NotIntercepted | Respond(response: Response)

  // ---------------------------------------------------------------------
  // Cache storage
  // ---------------------------------------------------------------------

  /** One cache: request URL to stored response. */
  type Cache = map<string, Response>

  /** The origin's cache storage: the caches by name, and the order in
      which they were created, which is the order `caches.keys` lists them
      and `caches.match` searches them. */
  datatype Storage = Storage(order: seq<string>, caches: map<string, Cache>)

  predicate Distinct(xs: seq<string>) {
    forall i, j :: 0 <= i < j < |xs| ==> xs[i] != xs[j]
  }

  /** The creation order lists every cache exactly once. */
  predicate WellFormed(s: Storage) {
    Distinct(s.order) &&
    (forall n :: n in s.caches ==> n in s.order) &&
    (forall n :: n in s.order ==> n in s.caches)
  }

  /** Every entry of `after` that is not already in `before` holds an ok
      response. */
  predicate StoresOnlyOk(before: Storage, after: Storage) {
    forall n, k :: n in after.caches && k in after.caches[n] ==>
      IsOk(after.caches[n][k]) ||
      (n in before.caches && k in before.caches[n] && before.caches[n][k] == after.caches[n][k])
  }

  /** `caches.open(name)`: the named cache, created empty at the end of the
      order when it does not exist yet. */
  function Open(s: Storage, name: string): (t: Storage)
    ensures t.caches.Keys == s.caches.Keys + {name}
    ensures t.caches[name] == if name in s.caches then s.caches[name] else map[]
    ensures forall n :: n in s.caches ==> t.caches[n] == s.caches[n]
    ensures t.order == if name in s.caches then s.order else s.order + [name]
    ensures WellFormed(s) ==> WellFormed(t)
  {
    if name in s.caches then s else Storage(s.order + [name], s.caches[name := map[]])
  }

  /** The worker's own cache, or no entries when it does not exist. */
  function OwnCache(s: Storage): Cache {
    if CACHE_NAME in s.caches then s.caches[CACHE_NAME] else map[]
  }

  /** `cache.put(url, response)` on the named cache, opening it first. */
  function Put(s: Storage, name: string, url: string, r: Response): (t: Storage)
    ensures t.caches.Keys == s.caches.Keys + {name}
    ensures t.caches[name] == (if name in s.caches then s.caches[name] else map[])[url := r]
    ensures forall n :: n in s.caches && n != name ==> t.caches[n] == s.caches[n]
    ensures t.order == if name in s.caches then s.order else s.order + [name]
    ensures WellFormed(s) ==> WellFormed(t)
  {
    var o := Open(s, name);
    Storage(o.order, o.caches[name := o.caches[name][url := r]])
  }

  /** The entries `added` written into the named cache, which exists. */
  function AddAll(s: Storage, name: string, added: Cache): (t: Storage)
    requires name in s.caches
    ensures t.caches.Keys == s.caches.Keys
    ensures t.caches[name].Keys == s.caches[name].Keys + added.Keys
    ensures forall k :: k in added ==> t.caches[name][k] == added[k]
    ensures forall k :: k in s.caches[name] && k !in added ==> t.caches[name][k] == s.caches[name][k]
    ensures forall n :: n in s.caches && n != name ==> t.caches[n] == s.caches[n]
    ensures t.order == s.order
    ensures WellFormed(s) ==> WellFormed(t)
  {
    Storage(s.order, s.caches[name := s.caches[name] + added])
  }

  /** `xs` without `x`, in the same order. */
  function Remove(xs: seq<string>, x: string): (r: seq<string>)
    ensures forall y :: y in r <==> y in xs && y != x
    ensures Distinct(xs) ==> Distinct(r)
    ensures x !in xs ==> r == xs
  {
    if xs == [] then []
    else if xs[0] == x then Remove(xs[1..], x)
    else
      var rest := Remove(xs[1..], x);
      assert Distinct(xs) ==> Distinct(xs[1..]) && xs[0] !in xs[1..];
      [xs[0]] + rest
  }

  /** In a list without repeats, removing the name at `k` closes the gap
      and keeps the others in order. */
  lemma RemoveAt(xs: seq<string>, k: nat)
    requires Distinct(xs) && k < |xs|
    ensures Remove(xs, xs[k]) == xs[..k] + xs[k + 1..]
  {
    RemoveOnce(xs, xs[k], k);
  }

  /** A name found only at `k` is removed by closing the gap at `k`. */
  lemma {:induction false} RemoveOnce(xs: seq<string>, x: string, k: nat)
    requires k < |xs| && xs[k] == x
    requires forall j :: 0 <= j < |xs| && j != k ==> xs[j] != x
    ensures Remove(xs, x) == xs[..k] + xs[k + 1..]
  {
    var tail := xs[1..];
    if k == 0 {
      assert x !in tail;
    } else {
      RemoveOnce(tail, x, k - 1);
      assert xs[..k] + xs[k + 1..] == [xs[0]] + (tail[..k - 1] + tail[k..]);
    }
  }

  /** `caches.delete(name)`: the cache and its place in the order are gone. */
  function Delete(s: Storage, name: string): (t: Storage)
    ensures name !in t.caches
    ensures forall n :: n in t.caches <==> n in s.caches && n != name
    ensures forall n :: n in t.caches ==> t.caches[n] == s.caches[n]
    ensures t.order == Remove(s.order, name)
    ensures WellFormed(s) ==> WellFormed(t)
  {
    Storage(Remove(s.order, name), s.caches - {name})
  }

  /** The cache at position `k` of `order` holds `url`. */
  predicate HoldsAt(order: seq<string>, caches: map<string, Cache>, url: string, k: int) {
    0 <= k < |order| && order[k] in caches && url in caches[order[k]]
  }

  /** Position `k` is the first in `order` whose cache holds `url`. */
  predicate FirstHolder(order: seq<string>, caches: map<string, Cache>, url: string, k: int) {
    HoldsAt(order, caches, url, k) && forall j :: 0 <= j < k ==> !HoldsAt(order, caches, url, j)
  }

  /** `caches.match` over the caches named in `order`, first one first. */
  function MatchIn(order: seq<string>, caches: map<string, Cache>, url: string): (r: Option<Response>)
    // The first clause follows from the second; it is kept in the
    // membership form that callers' proofs match on.
    ensures r.Some? ==> exists n :: n in order && n in caches && url in caches[n] && caches[n][url] == r.value
    ensures r.Some? ==> exists k :: FirstHolder(order, caches, url, k) && r.value == caches[order[k]][url]
    ensures r.None? <==> forall n :: n in order && n in caches ==> url !in caches[n]
  {
    if order == [] then None
    else if order[0] in caches && url in caches[order[0]] then
      assert FirstHolder(order, caches, url, 0);
      Some(caches[order[0]][url])
    else
      var r := MatchIn(order[1..], caches, url);
      assert forall n :: n in order ==> n == order[0] || n in order[1..];
      assert forall j :: 0 < j < |order| ==> (HoldsAt(order, caches, url, j) <==> HoldsAt(order[1..], caches, url, j - 1));
      assert r.Some? ==> exists k :: FirstHolder(order, caches, url, k) && r.value == caches[order[k]][url] by {
        if r.Some? {
          var k :| FirstHolder(order[1..], caches, url, k) && r.value == caches[order[1..][k]][url];
          assert FirstHolder(order, caches, url, k + 1);
        }
      }
      r
  }

  /** Whatever cache first holds `url` is the one that answers. */
  lemma MatchFirstHolder(order: seq<string>, caches: map<string, Cache>, url: string, k: int)
    requires FirstHolder(order, caches, url, k)
    ensures MatchIn(order, caches, url) == Some(caches[order[k]][url])
  {
    var r := MatchIn(order, caches, url);
    assert r.Some?;
    var k' :| FirstHolder(order, caches, url, k') && r.value == caches[order[k']][url];
    assert !(k < k') && !(k' < k);
  }

  /** `caches.match(request)`: the first stored response for the URL, in
      cache creation order. */
  function Match(s: Storage, url: string): Option<Response> {
    MatchIn(s.order, s.caches, url)
  }

  /** A URL held by one cache only is answered from that cache. */
  lemma MatchSole(s: Storage, name: string, url: string)
    requires WellFormed(s)
    requires name in s.caches && url in s.caches[name]
    requires forall n :: n in s.caches && n != name ==> url !in s.caches[n]
    ensures Match(s, url) == Some(s.caches[name][url])
  {
  }

  // ---------------------------------------------------------------------
  // Install
  // ---------------------------------------------------------------------

  /** `cache.addAll(urls)`: every URL is fetched, and the entries are kept
      only when every fetch resolved with an ok response. */
  function FetchAll(urls: seq<string>, network: string -> NetOutcome): (r: Option<Cache>)
    ensures r.Some? <==> forall i :: 0 <= i < |urls| ==> Succeeds(network(urls[i]))
    ensures r.Some? ==> r.value.Keys == set u | u in urls
    ensures r.Some? ==> forall u :: u in urls ==> r.value[u] == network(u).response
    ensures r.Some? ==> forall u :: u in r.value ==> IsOk(r.value[u])
  {
    if urls == [] then Some(map[])
    else
      var o := network(urls[0]);
      var rest := FetchAll(urls[1..], network);
      assert forall u :: u in urls ==> u == urls[0] || u in urls[1..];
      if !Succeeds(o) then None
      else if rest.None? then
        assert exists i :: 0 <= i < |urls| - 1 && !Succeeds(network(urls[1..][i]));
        None
      else
        assert forall i :: 1 <= i < |urls| ==> urls[i] == urls[1..][i - 1];
        Some(rest.value[urls[0] := o.response])
  }

  /** The storage after the install handler: the worker's cache is opened
      (and so exists), and holds the pre-cached resources when every one of
      them was fetched with an ok response. */
  function AfterInstall(s: Storage, network: string -> NetOutcome): (t: Storage)
    ensures CACHE_NAME in t.caches
    ensures t.caches.Keys == s.caches.Keys + {CACHE_NAME}
    ensures forall n :: n in s.caches && n != CACHE_NAME ==> t.caches[n] == s.caches[n]
    ensures FetchAll(InstallUrls(), network).Some? ==>
      forall u :: u in InstallUrls() ==> u in t.caches[CACHE_NAME] && t.caches[CACHE_NAME][u] == network(u).response
    ensures FetchAll(InstallUrls(), network).Some? ==>
      t.caches[CACHE_NAME].Keys == OwnCache(s).Keys + set u | u in InstallUrls()
    ensures forall k :: k in OwnCache(s) && k !in InstallUrls() ==>
      k in t.caches[CACHE_NAME] && t.caches[CACHE_NAME][k] == OwnCache(s)[k]
    ensures FetchAll(InstallUrls(), network).None? ==> t.caches[CACHE_NAME] == OwnCache(s)
    ensures t.order == if CACHE_NAME in s.caches then s.order else s.order + [CACHE_NAME]
    ensures StoresOnlyOk(s, t)
    ensures WellFormed(s) ==> WellFormed(t)
  {
    var o := Open(s, CACHE_NAME);
    assert o.caches[CACHE_NAME] == OwnCache(s);
    match FetchAll(InstallUrls(), network)
    case None => o
    case Some(added) =>
      assert forall k :: k !in InstallUrls() ==> k !in added;
      InstallStoresOnlyOk(s, added);
      AddAll(o, CACHE_NAME, added)
  }

  /** Opening the worker's cache and adding ok responses to it stores only
      ok responses. */
  lemma InstallStoresOnlyOk(s: Storage, added: Cache)
    requires forall k :: k in added ==> IsOk(added[k])
    ensures StoresOnlyOk(s, AddAll(Open(s, CACHE_NAME), CACHE_NAME, added))
  {
    var o := Open(s, CACHE_NAME);
    assert StoresOnlyOk(s, o);
  }

  /** The install handler's two steps, open and then add all, end in
      `AfterInstall`. */
  lemma InstallSteps(s: Storage, network: string -> NetOutcome)
    ensures FetchAll(InstallUrls(), network).Some? ==>
      AddAll(Open(s, CACHE_NAME), CACHE_NAME, FetchAll(InstallUrls(), network).value) == AfterInstall(s, network)
    ensures FetchAll(InstallUrls(), network).None? ==> Open(s, CACHE_NAME) == AfterInstall(s, network)
  {
  }

  // ---------------------------------------------------------------------
  // Activate
  // ---------------------------------------------------------------------

  /** The storage after the activate handler: every cache but the worker's
      own is deleted, and the worker's own is kept as it was. */
  function Pruned(s: Storage): (t: Storage)
    ensures t.caches.Keys == s.caches.Keys * {CACHE_NAME}
    ensures CACHE_NAME in s.caches ==> t.caches[CACHE_NAME] == s.caches[CACHE_NAME]
    ensures WellFormed(t)
  {
    if CACHE_NAME in s.caches then Storage([CACHE_NAME], map[CACHE_NAME := s.caches[CACHE_NAME]])
    else Storage([], map[])
  }

  /** A list without repetitions has as many elements as its set. */
  lemma {:induction false} DistinctSize(xs: seq<string>)
    requires Distinct(xs)
    ensures |set y | y in xs| == |xs|
  {
    if xs != [] {
      DistinctSize(xs[1..]);
      assert (set y | y in xs) == {xs[0]} + set y | y in xs[1..];
      assert xs[0] !in xs[1..];
    }
  }

  /** A distinct list of names that are all `x` is empty or `[x]`. */
  lemma DistinctOfOne(xs: seq<string>, x: string)
    requires Distinct(xs)
    requires forall y :: y in xs ==> y == x
    ensures xs == [] || xs == [x]
  {
    DistinctSize(xs);
    assert (set y | y in xs) <= {x};
    assert |xs| <= 1 by {
      var s := set y | y in xs;
      assert s == {} || s == {x};
    }
    assert |xs| == 1 ==> xs == [xs[0]];
  }

  /** `t` is `s` after deleting, one by one, the names in `seen` other than
      the worker's own. */
  ghost predicate PrunedOf(s: Storage, t: Storage, seen: seq<string>) {
    WellFormed(t) &&
    (forall n :: n in t.caches <==> n in s.caches && (n == CACHE_NAME || n !in seen)) &&
    (forall n :: n in t.caches ==> t.caches[n] == s.caches[n])
  }

  lemma PrunedOfStep(s: Storage, t: Storage, seen: seq<string>, name: string)
    requires PrunedOf(s, t, seen)
    ensures PrunedOf(s, if name != CACHE_NAME then Delete(t, name) else t, seen + [name])
  {
  }

  /** Once every name in the creation order has been seen, what is left is
      the pruned storage. */
  lemma PrunedOfAll(s: Storage, t: Storage)
    requires WellFormed(s) && PrunedOf(s, t, s.order)
    ensures t == Pruned(s)
  {
    DistinctOfOne(t.order, CACHE_NAME);
    assert t.caches == Pruned(s).caches;
  }

  // ---------------------------------------------------------------------
  // Fetch
  // ---------------------------------------------------------------------

  /** The result of one fetch event: the reply, the storage after it, and
      whether a background refresh of the URL was started. */
  datatype Handled = Handled(reply: FetchReply, storage: Storage, refresh: bool)

  /** The fetch handler. `matchFails` says that `caches.match` rejected;
      `net` is what a network fetch of the request would do. */
  function FetchOutcome(s: Storage, req: Request, matchFails: bool, net: NetOutcome): (h: Handled)
    ensures h.reply.NotIntercepted? <==> req.verb != "GET" || !IsAdminResource(req.url)
    ensures h.refresh <==> h.reply.Respond? && !matchFails && Match(s, req.url).Some?
    ensures h.refresh ==> h.reply.response == Match(s, req.url).value
    ensures h.storage != s ==>
      !matchFails && Match(s, req.url).None? && Succeeds(net) && h.reply == Respond(net.response)
    ensures h.storage == s || h.storage == Put(s, CACHE_NAME, req.url, net.response)
    ensures req.verb == "GET" && IsAdminResource(req.url) && !matchFails && Match(s, req.url).None? && Succeeds(net) ==>
      h.storage == Put(s, CACHE_NAME, req.url, net.response)
    ensures StoresOnlyOk(s, h.storage)
    ensures WellFormed(s) ==> WellFormed(h.storage)
  {
    if req.verb != "GET" || !IsAdminResource(req.url) then Handled(NotIntercepted, s, false)
    else if matchFails then Handled(Respond(Unavailable()), s, false)
    else match Match(s, req.url)
      case Some(cached) => Handled(Respond(cached), s, true)
      case None =>
        match net
        case NetError => Handled(Respond(Unavailable()), s, false)
        case Fetched(r) => Handled(Respond(r), if IsOk(r) then Put(s, CACHE_NAME, req.url, r) else s, false)
  }

  /** The background refresh a cache hit started: an ok response replaces
      the stored one in the worker's cache; anything else changes nothing. */
  function Refreshed(s: Storage, url: string, net: NetOutcome): (t: Storage)
    ensures !Succeeds(net) ==> t == s
    ensures Succeeds(net) ==> t.caches.Keys == s.caches.Keys + {CACHE_NAME}
    ensures Succeeds(net) ==> t.caches[CACHE_NAME] == OwnCache(s)[url := net.response]
    ensures forall n :: n in s.caches && n != CACHE_NAME ==> t.caches[n] == s.caches[n]
    ensures Succeeds(net) ==> t.order == if CACHE_NAME in s.caches then s.order else s.order + [CACHE_NAME]
    ensures StoresOnlyOk(s, t)
    ensures WellFormed(s) ==> WellFormed(t)
  {
    if Succeeds(net) then Put(s, CACHE_NAME, url, net.response) else s
  }

  // ---------------------------------------------------------------------
  // Messages
  // ---------------------------------------------------------------------

  /** `event.data`: absent (or falsy), or an object whose `type` may be set. */
  datatype MessageData = MessageData(kind: Option<string>)

  /** A message event: its data and the ports transferred with it. */
  datatype Message = Message(data: Option<MessageData>, ports: seq<nat>)

  /** A `postMessage` on a transferred port. */
  datatype Reply = Reply(port: nat, success: bool)

  /** `event.data && event.data.type === kind`. */
  predicate Asks(msg: Message, kind: string) {
    msg.data.Some? && msg.data.value.kind == Some(kind)
  }

  // ---------------------------------------------------------------------
  // Properties across events
  // ---------------------------------------------------------------------

  /** Every cache entry the worker stores in its own cache is an ok response. */
  predicate OwnCacheOk(s: Storage) {
    CACHE_NAME in s.caches ==> forall k :: k in s.caches[CACHE_NAME] ==> IsOk(s.caches[CACHE_NAME][k])
  }

  /** A step that stores only ok responses keeps the worker's cache ok. */
  lemma OwnCacheStaysOk(s: Storage, t: Storage)
    requires OwnCacheOk(s) && StoresOnlyOk(s, t)
    ensures OwnCacheOk(t)
  {
    if CACHE_NAME in t.caches {
      forall k | k in t.caches[CACHE_NAME] ensures IsOk(t.caches[CACHE_NAME][k]) {
        var n := CACHE_NAME;
        assert n in t.caches && k in t.caches[n];
      }
    }
  }

  /** A request with any method other than GET is left to the browser and
      changes nothing. */
  lemma NonGetIgnored(s: Storage, req: Request, matchFails: bool, net: NetOutcome)
    requires req.verb != "GET"
    ensures FetchOutcome(s, req, matchFails, net) == Handled(NotIntercepted, s, false)
  {
  }

  /** Because the allow-list test holds of every URL, the handler answers
      every GET request itself; only other methods reach the browser. */
  lemma EveryGetIsIntercepted(s: Storage, req: Request, matchFails: bool, net: NetOutcome)
    ensures FetchOutcome(s, req, matchFails, net).reply.Respond? <==> req.verb == "GET"
  {
    EveryUrlIsAdminResource(req.url);
  }

  /** A cache hit answers with the stored response whatever the network
      would do, changes no cache, and starts a background refresh. */
  lemma HitIgnoresNetwork(s: Storage, req: Request, net1: NetOutcome, net2: NetOutcome)
    requires req.verb == "GET" && Match(s, req.url).Some?
    ensures FetchOutcome(s, req, false, net1) == FetchOutcome(s, req, false, net2)
    ensures FetchOutcome(s, req, false, net1) == Handled(Respond(Match(s, req.url).value), s, true)
  {
    EveryUrlIsAdminResource(req.url);
  }

  /** On a miss the network response is passed on unchanged, and stored
      under the request's URL in the worker's cache exactly when it is ok. */
  lemma MissAnswersFromNetwork(s: Storage, req: Request, r: Response)
    requires req.verb == "GET" && Match(s, req.url).None?
    ensures FetchOutcome(s, req, false, Fetched(r)).reply == Respond(r)
    ensures FetchOutcome(s, req, false, Fetched(r)).storage ==
      if IsOk(r) then Put(s, CACHE_NAME, req.url, r) else s
    ensures !FetchOutcome(s, req, false, Fetched(r)).refresh
  {
    EveryUrlIsAdminResource(req.url);
  }

  /** After a miss answered by an ok network response, the next request for
      the same URL is a cache hit with that response, whatever the network
      does then. */
  lemma MissThenServedFromCache(s: Storage, req: Request, r: Response, net: NetOutcome)
    requires WellFormed(s)
    requires req.verb == "GET" && Match(s, req.url).None? && IsOk(r)
    ensures var t := FetchOutcome(s, req, false, Fetched(r)).storage;
      FetchOutcome(t, req, false, net) == Handled(Respond(r), t, true)
  {
    EveryUrlIsAdminResource(req.url);
    var t := Put(s, CACHE_NAME, req.url, r);
    assert FetchOutcome(s, req, false, Fetched(r)).storage == t;
    MatchSole(t, CACHE_NAME, req.url);
  }

  /** A miss answered by a non-ok response is passed on and not stored, so
      the next request for the URL misses again. */
  lemma FailedResponseNotStored(s: Storage, req: Request, r: Response)
    requires req.verb == "GET" && Match(s, req.url).None? && !IsOk(r)
    ensures FetchOutcome(s, req, false, Fetched(r)) == Handled(Respond(r), s, false)
  {
    EveryUrlIsAdminResource(req.url);
  }

  /** The handler answers 503 when `caches.match` fails, or when the URL is
      not cached and the network fetch fails. */
  lemma UnavailableWhenBothFail(s: Storage, req: Request, matchFails: bool, net: NetOutcome)
    requires req.verb == "GET"
    requires matchFails || (Match(s, req.url).None? && net == NetError)
    ensures FetchOutcome(s, req, matchFails, net) == Handled(Respond(Unavailable()), s, false)
  {
    EveryUrlIsAdminResource(req.url);
  }

  /** After activation a URL is found exactly when the worker's own cache
      holds it. */
  lemma MatchAfterActivate(s: Storage, url: string)
    ensures Match(Pruned(s), url) ==
      if CACHE_NAME in s.caches && url in s.caches[CACHE_NAME] then Some(s.caches[CACHE_NAME][url]) else None
  {
  }

  /** A successful install followed by activation serves every pre-cached
      resource with the response the install fetched. */
  lemma InstallThenActivateServes(s: Storage, network: string -> NetOutcome, url: string)
    requires FetchAll(InstallUrls(), network).Some?
    requires url in InstallUrls()
    ensures Match(Pruned(AfterInstall(s, network)), url) == Some(network(url).response)
  {
    MatchAfterActivate(AfterInstall(s, network), url);
  }

  /** On a first install, the worker's cache ends up holding exactly the
      first five allow-list entries: the admin pages, Tailwind and Font
      Awesome. */
  lemma FirstInstallCachesFirstFive(s: Storage, network: string -> NetOutcome)
    requires CACHE_NAME !in s.caches
    requires FetchAll(InstallUrls(), network).Some?
    ensures Pruned(AfterInstall(s, network)).caches.Keys == {CACHE_NAME}
    ensures Pruned(AfterInstall(s, network)).caches[CACHE_NAME].Keys == set u | u in ADMIN_URLS[..5]
  {
    var t := AfterInstall(s, network);
    assert CACHE_NAME in t.caches;
    assert Pruned(t).caches.Keys == {CACHE_NAME} by {
      assert Pruned(t) == Storage([CACHE_NAME], map[CACHE_NAME := t.caches[CACHE_NAME]]);
    }
    assert Pruned(t).caches[CACHE_NAME].Keys == set u | u in InstallUrls() by {
      assert OwnCache(s) == map[];
    }
    InstallUrlsAreFirstFive();
  }

  /** The Firebase scripts are never pre-cached: after a first install and
      activation they are not in any cache. */
  lemma FirstInstallSkipsFirebase(s: Storage, network: string -> NetOutcome)
    requires CACHE_NAME !in s.caches
    ensures Match(Pruned(AfterInstall(s, network)), FIREBASE_APP_URL).None?
    ensures Match(Pruned(AfterInstall(s, network)), FIREBASE_AUTH_URL).None?
    ensures Match(Pruned(AfterInstall(s, network)), FIREBASE_STORE_URL).None?
  {
    InstallUrlsAreFirstFive();
    var t := AfterInstall(s, network);
    assert forall k :: k in t.caches[CACHE_NAME] ==> k in InstallUrls();
    MatchAfterActivate(t, FIREBASE_APP_URL);
    MatchAfterActivate(t, FIREBASE_AUTH_URL);
    MatchAfterActivate(t, FIREBASE_STORE_URL);
  }

  /** Install never writes a Firebase script, whatever the storage held
      before: the worker's cache has such a URL afterwards exactly when it
      had it before, with the same response. */
  lemma InstallLeavesFirebaseAlone(s: Storage, network: string -> NetOutcome, u: string)
    requires u == FIREBASE_APP_URL || u == FIREBASE_AUTH_URL || u == FIREBASE_STORE_URL
    ensures u in AfterInstall(s, network).caches[CACHE_NAME] <==> u in OwnCache(s)
    ensures u in OwnCache(s) ==> AfterInstall(s, network).caches[CACHE_NAME][u] == OwnCache(s)[u]
  {
    InstallUrlsAreFirstFive();
  }

  /** A refresh with an ok response is what the next request for the URL
      gets, when no other cache holds the URL. */
  lemma RefreshServesFresh(s: Storage, url: string, net: NetOutcome)
    requires WellFormed(s) && Succeeds(net)
    requires forall n :: n in s.caches && n != CACHE_NAME ==> url !in s.caches[n]
    ensures Match(Refreshed(s, url, net), url) == Some(net.response)
  {
    MatchSole(Refreshed(s, url, net), CACHE_NAME, url);
  }

  /** A cache ahead of the worker's own in the creation order that holds the
      URL goes on answering after a refresh writes the worker's cache. */
  lemma StaleShadows(s: Storage, url: string, net: NetOutcome, k: nat)
    requires WellFormed(s)
    requires HoldsAt(s.order, s.caches, url, k) && s.order[k] != CACHE_NAME
    requires forall j :: 0 <= j < k ==> s.order[j] != CACHE_NAME
    ensures Match(Refreshed(s, url, net), url) == Match(s, url)
    ensures Match(Refreshed(s, url, net), url).Some?
  {
    var k0 := FirstHolderUpTo(s.order, s.caches, url, k);
    MatchFirstHolder(s.order, s.caches, url, k0);
    if Succeeds(net) {
      forall j | 0 <= j <= k0
        ensures s.order[j] in s.caches && s.order[j] != CACHE_NAME
      {
        if j < k {
          assert s.order[j] != CACHE_NAME;
        }
      }
      PutBehindFirstHolder(s, url, net.response, k0);
    }
  }

  /** Writing the worker's cache leaves the answer alone when the first
      holder of `url`, and every cache before it, is another cache. */
  lemma PutBehindFirstHolder(s: Storage, url: string, r: Response, k0: nat)
    requires FirstHolder(s.order, s.caches, url, k0)
    requires forall j :: 0 <= j <= k0 ==> s.order[j] in s.caches && s.order[j] != CACHE_NAME
    ensures Match(Put(s, CACHE_NAME, url, r), url) == Match(s, url)
  {
    var t := Put(s, CACHE_NAME, url, r);
    assert t.order[..|s.order|] == s.order;
    SamePrefixSameMatch(s, t, url, k0);
  }

  /** A cache at `k` holding `url` has a first holder at or before it. */
  lemma {:induction false} FirstHolderUpTo(order: seq<string>, caches: map<string, Cache>, url: string, k: nat)
    returns (k0: nat)
    requires HoldsAt(order, caches, url, k)
    ensures k0 <= k && FirstHolder(order, caches, url, k0)
    decreases k
  {
    if forall j :: 0 <= j < k ==> !HoldsAt(order, caches, url, j) {
      k0 := k;
    } else {
      var j :| 0 <= j < k && HoldsAt(order, caches, url, j);
      k0 := FirstHolderUpTo(order, caches, url, j);
    }
  }

  /** Two storages that agree on the caches up to the first holder of
      `url` answer `url` alike. */
  lemma SamePrefixSameMatch(s: Storage, t: Storage, url: string, k0: nat)
    requires FirstHolder(s.order, s.caches, url, k0)
    requires |s.order| <= |t.order| && t.order[..|s.order|] == s.order
    requires forall j :: 0 <= j <= k0 ==> s.order[j] in s.caches && s.order[j] in t.caches
    requires forall j :: 0 <= j <= k0 ==> t.caches[s.order[j]] == s.caches[s.order[j]]
    ensures Match(t, url) == Match(s, url)
  {
    forall j | 0 <= j <= k0
      ensures HoldsAt(t.order, t.caches, url, j) <==> HoldsAt(s.order, s.caches, url, j)
    {
      assert t.order[j] == t.order[..|s.order|][j];
    }
    assert FirstHolder(t.order, t.caches, url, k0);
    MatchFirstHolder(t.order, t.caches, url, k0);
    MatchFirstHolder(s.order, s.caches, url, k0);
  }

  /** Once activation has pruned the storage to the worker's cache, the
      worker's own steps never bring another cache back, so no stale cache
      can answer ahead of the worker's. */
  lemma OwnStepsKeepOnlyOwnCache(s: Storage, req: Request, matchFails: bool, net: NetOutcome,
                                 url: string, refresh: NetOutcome, network: string -> NetOutcome)
    ensures Pruned(s).caches.Keys <= {CACHE_NAME}
    ensures s.caches.Keys <= {CACHE_NAME} ==> FetchOutcome(s, req, matchFails, net).storage.caches.Keys <= {CACHE_NAME}
    ensures s.caches.Keys <= {CACHE_NAME} ==> Refreshed(s, url, refresh).caches.Keys <= {CACHE_NAME}
    ensures s.caches.Keys <= {CACHE_NAME} ==> AfterInstall(s, network).caches.Keys <= {CACHE_NAME}
    ensures s.caches.Keys <= {CACHE_NAME} ==> Delete(s, CACHE_NAME).caches.Keys == {}
  {
  }

  /** After activation, clearing the worker's cache leaves nothing to match. */
  lemma ClearAfterActivateEmpties(s: Storage, url: string)
    ensures Match(Delete(Pruned(s), CACHE_NAME), url).None?
  {
  }

  // ---------------------------------------------------------------------
  // The worker
  // ---------------------------------------------------------------------

  class ServiceWorker {
    /** The origin's cache storage. */
    var storage: Storage
    /** `self.skipWaiting()` has been called. */
    var skippedWaiting: bool
    /** `self.clients.claim()` has been called. */
    var claimed: bool
    /** URLs whose background refresh has started and not yet settled. */
    var pending: seq<string>
    /** Replies posted on message ports, oldest first. */
    var replies: seq<Reply>

    predicate Valid()
      reads this
    {
      WellFormed(storage)
    }

    /** A worker starting over the storage earlier versions left behind. */
    constructor(existing: Storage)
      requires WellFormed(existing)
      ensures Valid()
      ensures storage == existing
      ensures !skippedWaiting && !claimed && pending == [] && replies == []
    {
      storage := existing;
      skippedWaiting := false;
      claimed := false;
      pending := [];
      replies := [];
    }

    /** The install handler: open the worker's cache, pre-cache the
        non-Firebase allow-list entries, and skip waiting when that worked. */
    method Install(network: string -> NetOutcome) returns (installed: bool)
      requires Valid()
      modifies this
      ensures Valid()
      ensures installed <==> FetchAll(InstallUrls(), network).Some?
      ensures storage == AfterInstall(old(storage), network)
      ensures skippedWaiting == (old(skippedWaiting) || installed)
      ensures claimed == old(claimed) && pending == old(pending) && replies == old(replies)
    {
      InstallSteps(storage, network);
      var withCache := Open(storage, CACHE_NAME);
      var added := FetchAll(InstallUrls(), network);
      if added.Some? {
        storage := AddAll(withCache, CACHE_NAME, added.value);
        skippedWaiting := true;
        installed := true;
      } else {
        storage := withCache;
        installed := false;
      }
    }

    /** The activate handler: delete every cache other than the worker's
        own, in the order `caches.keys` lists them, then claim the clients. */
    method Activate()
      requires Valid()
      modifies this
      ensures Valid()
      ensures storage == Pruned(old(storage))
      ensures claimed
      ensures skippedWaiting == old(skippedWaiting) && pending == old(pending) && replies == old(replies)
    {
      var cacheNames := storage.order;
      var i := 0;
      while i < |cacheNames|
        invariant 0 <= i <= |cacheNames|
        invariant PrunedOf(old(storage), storage, cacheNames[..i])
        invariant skippedWaiting == old(skippedWaiting) && pending == old(pending) && replies == old(replies)
      {
        PrunedOfStep(old(storage), storage, cacheNames[..i], cacheNames[i]);
        if cacheNames[i] != CACHE_NAME {
          storage := Delete(storage, cacheNames[i]);
        }
        assert cacheNames[..i + 1] == cacheNames[..i] + [cacheNames[i]];
        i := i + 1;
      }
      assert cacheNames[..i] == cacheNames;
      PrunedOfAll(old(storage), storage);
      claimed := true;
    }

    /** The fetch handler. The background refresh a cache hit starts is
        recorded in `pending` and settled later by `CompleteRefresh`. */
    method HandleFetch(req: Request, matchFails: bool, net: NetOutcome) returns (reply: FetchReply)
      requires Valid()
      modifies this
      ensures Valid()
      ensures reply == FetchOutcome(old(storage), req, matchFails, net).reply
      ensures storage == FetchOutcome(old(storage), req, matchFails, net).storage
      ensures pending == old(pending) + if FetchOutcome(old(storage), req, matchFails, net).refresh then [req.url] else []
      ensures skippedWaiting == old(skippedWaiting) && claimed == old(claimed) && replies == old(replies)
    {
      if req.verb != "GET" {
        return NotIntercepted;
      }
      if !IsAdminResource(req.url) {
        return NotIntercepted;
      }
      if matchFails {
        return Respond(Unavailable());
      }
      var cached := Match(storage, req.url);
      if cached.Some? {
        pending := pending + [req.url];
        return Respond(cached.value);
      }
      match net {
        case NetError =>
          reply := Respond(Unavailable());
        case Fetched(r) =>
          if IsOk(r) {
            storage := Put(storage, CACHE_NAME, req.url, r);
          }
          reply := Respond(r);
      }
    }

    /** The background refresh of `pending[i]` settles with `net`. */
    method CompleteRefresh(i: nat, net: NetOutcome)
      requires Valid() && i < |pending|
      modifies this
      ensures Valid()
      ensures storage == Refreshed(old(storage), old(pending)[i], net)
      ensures pending == old(pending)[..i] + old(pending)[i + 1..]
      ensures skippedWaiting == old(skippedWaiting) && claimed == old(claimed) && replies == old(replies)
    {
      storage := Refreshed(storage, pending[i], net);
      pending := pending[..i] + pending[i + 1..];
    }

    /** The message handler: `SKIP_WAITING` skips waiting; `CLEAR_CACHE`
        deletes the worker's cache and then posts `{success: true}` on the
        first transferred port, if there is one. */
    method HandleMessage(msg: Message)
      requires Valid()
      modifies this
      ensures Valid()
      ensures skippedWaiting == (old(skippedWaiting) || Asks(msg, "SKIP_WAITING"))
      ensures storage == if Asks(msg, "CLEAR_CACHE") then Delete(old(storage), CACHE_NAME) else old(storage)
      ensures replies == old(replies) +
        if Asks(msg, "CLEAR_CACHE") && |msg.ports| > 0 then [Reply(msg.ports[0], true)] else []
      ensures claimed == old(claimed) && pending == old(pending)
    {
      if Asks(msg, "SKIP_WAITING") {
        skippedWaiting := true;
      }
      if Asks(msg, "CLEAR_CACHE") {
        storage := Delete(storage, CACHE_NAME);
        if |msg.ports| > 0 {
          replies := replies + [Reply(msg.ports[0], true)];
        }
      }
    }
  }
}
