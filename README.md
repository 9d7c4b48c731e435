# Admin-panel service worker, modelled in Dafny

`api/admin-sw.js` is the service worker of a web site's admin panel. It keeps one versioned cache, `admin-cache-v1`, and:

- on **install**, opens that cache and pre-caches the allow-listed admin
  resources, except the Firebase SDK scripts, then skips waiting;
- on **activate**, deletes every other cache and claims the open pages;
- on **fetch**, intercepts GET requests that the allow-list test accepts and
  serves them stale-while-revalidate. A cache hit is answered from the cache
  and refreshed in the background. A miss goes to the network, and the
  code is written to store ok responses (see "## Left out" for why a
  browser would not store them). When both fail, the answer is a synthetic
  503;
- on **message**, handles `SKIP_WAITING` and `CLEAR_CACHE`. `CLEAR_CACHE`
  deletes the worker's cache and acknowledges with `{success: true}` on the
  first transferred port.

The model has two modules.

- `AdminPolicy` (`policy.dfy`) is pure. It holds the two constants and the
  allow-list test `isAdminResource`. That test is written out as
  `String.prototype.includes` (`Contains`), the origin-stripping regular
  expression `^https?://[^/]+` (`StripOrigin`) and `Array.prototype.some`
  (`ContainsAny`). The module also holds the install filter
  (`WithoutFirebase`). Each of these is proved against an independent
  definition: an occurrence index for `includes`, and the longest matching
  origin prefix for the regular expression.
- `AdminWorker` (`worker.dfy`) models the browser's cache storage as a value
  (`Storage`): the caches by name, plus their creation order, which is the
  order in which `caches.match` searches them. A class `ServiceWorker` holds
  that storage, the `skipWaiting` and `clients.claim` flags, the background
  refreshes still in flight and the replies posted on message ports. Each
  event handler is a method of the class. Each method is proved against a
  pure function (`AfterInstall`, `Pruned`, `FetchOutcome`, `Refreshed`) or,
  for messages, against the cache operations directly. Lemmas then relate
  those functions across events.

The network is a parameter: one `NetOutcome` per fetch, or a function from
URL to outcome for the install step. A rejected `caches.match` is the
boolean parameter `matchFails`. "Ok" means a status from 200 to 299, as
section 2.2.3 "Statuses" of the WHATWG Fetch Standard defines it.

The fetch handler uses the allow-list test exactly as written, so the
handler intercepts every GET request (see Findings).

## Model

| member | source | states |
|---|---|---|
| AdminPolicy.Contains | api/admin-sw.js:49 | `url.includes(p)` as a left-to-right search; its meaning is stated by `ContainsIffOccurs` |
| AdminPolicy.ContainsIffOccurs | api/admin-sw.js:49-50 | `includes` is true exactly when the needle occurs at some index of the string |
| AdminPolicy.ContainsSuffix | api/admin-sw.js:49 | every string contains each of its suffixes, so an entry always contains what its stripped form leaves |
| AdminPolicy.StripOrigin | api/admin-sw.js:49 | the replacement only removes a prefix: the result is a suffix of the entry |
| AdminPolicy.StripOriginRemovesLongestOrigin | api/admin-sw.js:49 | what is removed is a prefix matching `^https?://[^/]+`, and no longer prefix matches; nothing is removed when no prefix matches |
| AdminPolicy.StripOriginKeepsRelative | api/admin-sw.js:49 | an entry starting with `/` is left unchanged |
| AdminPolicy.StripOriginKeepsPath | api/admin-sw.js:49 | an `http(s)://host` origin followed by a `/`-path, or by nothing, strips to exactly that path |
| AdminPolicy.TailwindStripsToEmpty | api/admin-sw.js:7 | the bare Tailwind origin strips to the empty string |
| AdminPolicy.AllowListPatterns | api/admin-sw.js:3-12 | what each of the eight allow-list entries strips to |
| AdminPolicy.Patterns | api/admin-sw.js:48-49 | one pattern per allow-list entry, in order: that entry with its origin stripped |
| AdminPolicy.ContainsAny | api/admin-sw.js:48-49 | `ADMIN_URLS.some(...)` over the stripped patterns; `ContainsAnyIff` states its meaning |
| AdminPolicy.ContainsAnyIff | api/admin-sw.js:48-49 | `some` over the patterns is true exactly when some pattern occurs in the URL |
| AdminPolicy.IsAdminResource | api/admin-sw.js:48-50 | `isAdminResource` as written: some stripped entry occurs in the URL, or the URL contains `/admin`; `EveryUrlIsAdminResource` shows it holds of every URL |
| AdminPolicy.EveryUrlIsAdminResource | api/admin-sw.js:48-50 | as written, the allow-list test accepts every URL |
| AdminPolicy.IntendedPattern | api/admin-sw.js:48-50 | corrected pattern: never empty for a non-empty entry, and always contained in its entry |
| AdminPolicy.IsAdminResourceIntended | api/admin-sw.js:48-50 | the corrected test, with a bare-origin entry matched whole; `IntendedAcceptsAllowListed` and `IntendedRejectsWithoutA` state what it accepts and rejects |
| AdminPolicy.IntendedAcceptsAllowListed | api/admin-sw.js:3-50 | the corrected test still accepts every allow-list entry itself |
| AdminPolicy.IntendedRejectsWithoutA | api/admin-sw.js:48-50 | the corrected test rejects every URL without the letter `a`, because every corrected pattern and `/admin` contain one |
| AdminPolicy.IntendedRejectsUnrelated | api/admin-sw.js:48-50 | for `https://tourney.test/index.html`, the test as written accepts and the corrected test rejects |
| AdminPolicy.WithoutFirebase | api/admin-sw.js:20 | the filter keeps exactly the entries not containing `firebase`, and never lengthens the list |
| AdminPolicy.WithoutFirebaseKeepsPrefix | api/admin-sw.js:20 | the filter keeps a marker-free prefix, in order, and drops a tail in which every entry carries the marker |
| AdminPolicy.NotFirebaseBelowFive | api/admin-sw.js:4-8 | none of the first five allow-list entries contains `firebase` |
| AdminPolicy.FirebaseFromFive | api/admin-sw.js:9-11 | each of the last three allow-list entries contains `firebase` |
| AdminPolicy.InstallUrls | api/admin-sw.js:20 | `ADMIN_URLS.filter(url => !url.includes('firebase'))`; `InstallUrlsAreFirstFive` states its value |
| AdminPolicy.InstallUrlsAreFirstFive | api/admin-sw.js:3-20 | the install list is the first five allow-list entries in list order, and none of the three Firebase scripts |
| AdminWorker.IsOk | api/admin-sw.js:60 | `response.ok`: a status from 200 to 299; the caching contracts below are stated in terms of it |
| AdminWorker.Unavailable | api/admin-sw.js:84-87 | the fallback response has status 503 and is not ok |
| AdminWorker.Open | api/admin-sw.js:61 | `caches.open` yields the named cache with its old entries, or a new empty one appended at the end of the creation order; the order is otherwise unchanged; other caches are unchanged; the storage stays well-formed |
| AdminWorker.Put | api/admin-sw.js:62 | `cache.put` sets one URL in the named cache (created if missing, at the end of the creation order) and changes no other cache and nothing else in the order |
| AdminWorker.AddAll | api/admin-sw.js:20 | `addAll`'s entries overwrite or extend the named cache; the other entries, the other caches and the creation order are unchanged |
| AdminWorker.Remove | api/admin-sw.js:34 | removes one name from the creation order, keeping the others and their distinctness; a name not listed leaves the order as it is |
| AdminWorker.Delete | api/admin-sw.js:100 | `caches.delete` removes exactly the named cache and its place in the creation order; the others keep their contents |
| AdminWorker.MatchIn | api/admin-sw.js:54 | `caches.match` answers from the first cache in creation order that holds the URL, and misses exactly when no cache holds the URL |
| AdminWorker.Match | api/admin-sw.js:54 | `caches.match(request)` over the storage, in cache creation order; `MatchIn` states its meaning |
| AdminWorker.MatchSole | api/admin-sw.js:54 | a URL held by only one cache is answered from that cache |
| AdminWorker.MatchFirstHolder | api/admin-sw.js:54 | the first cache in creation order that holds the URL is the one that answers |
| AdminWorker.RemoveAt | api/admin-sw.js:34 | deleting a cache closes its gap in the creation order and keeps the other names in order |
| AdminWorker.RemoveOnce | api/admin-sw.js:34 | a name listed once is removed by closing the gap where it stood |
| AdminWorker.FetchAll | api/admin-sw.js:20 | `addAll` succeeds exactly when every fetch resolves ok; it then yields exactly those URLs, with their responses, all of them ok |
| AdminWorker.AfterInstall | api/admin-sw.js:15-24 | install always creates the worker's cache; on success its keys are exactly its earlier keys plus the install URLs, each holding its fetched response; every earlier entry under another URL is kept; on failure it is as before; other caches are unchanged; the creation order gains the worker's cache at the end only if it was missing; only ok responses are added |
| AdminWorker.Pruned | api/admin-sw.js:27-40 | after activation only `admin-cache-v1` can remain, with its entries, and it is not created if missing |
| AdminWorker.FetchOutcome | api/admin-sw.js:43-91 | intercepted exactly for GET requests that pass the allow-list test; a background refresh exactly on a hit, answered with the cached response; the storage changes exactly on a miss whose network response is ok, and then by storing that response in `admin-cache-v1`; only ok responses are stored |
| AdminWorker.Refreshed | api/admin-sw.js:59-67 | an ok refresh replaces or adds the entry for that URL in `admin-cache-v1` and changes no other entry and no other cache, and appends `admin-cache-v1` to the creation order only if it was missing; a failed or non-ok one changes nothing |
| AdminWorker.OwnCacheStaysOk | api/admin-sw.js:60-62 | a step that stores only ok responses keeps every entry of `admin-cache-v1` ok |
| AdminWorker.NonGetIgnored | api/admin-sw.js:45 | a non-GET request is not intercepted, starts no refresh and changes no cache |
| AdminWorker.EveryGetIsIntercepted | api/admin-sw.js:45-52 | because of the allow-list defect, a request is answered by the worker exactly when it is a GET |
| AdminWorker.HitIgnoresNetwork | api/admin-sw.js:54-69 | on a hit the answer is the cached response whatever the network does, no cache changes, and a refresh starts |
| AdminWorker.MissAnswersFromNetwork | api/admin-sw.js:72-80 | on a miss the network response is returned unchanged and stored exactly when it is ok |
| AdminWorker.MissThenServedFromCache | api/admin-sw.js:54-80 | after a miss answered ok, the next request for that URL is a hit with the same response |
| AdminWorker.FailedResponseNotStored | api/admin-sw.js:72-80 | a non-ok network response on a miss is returned but not stored |
| AdminWorker.UnavailableWhenBothFail | api/admin-sw.js:82-88 | a failed cache lookup, or a miss plus a network error, yields the 503 response and leaves the cache unchanged |
| AdminWorker.MatchAfterActivate | api/admin-sw.js:27-54 | after activation a URL is found exactly when `admin-cache-v1` holds it |
| AdminWorker.InstallThenActivateServes | api/admin-sw.js:15-54 | after a successful install and activation, every pre-cached URL is served with the response the install fetched |
| AdminWorker.FirstInstallCachesFirstFive | api/admin-sw.js:3-40 | a first install plus activation leaves one cache, holding exactly the first five allow-list entries |
| AdminWorker.FirstInstallSkipsFirebase | api/admin-sw.js:9-40 | after a first install and activation, none of the three Firebase scripts is in any cache |
| AdminWorker.InstallLeavesFirebaseAlone | api/admin-sw.js:9-20 | for any earlier storage, install never writes a Firebase script: the worker's cache holds one afterwards exactly when it did before, with the same response |
| AdminWorker.RefreshServesFresh | api/admin-sw.js:59-64 | after an ok refresh, the next lookup of that URL returns the fresh response, provided no other cache holds the URL |
| AdminWorker.StaleShadows | api/admin-sw.js:54-64 | a cache ahead of `admin-cache-v1` in creation order that holds the URL goes on answering after a refresh writes `admin-cache-v1`: the next lookup returns what it returned before the refresh |
| AdminWorker.PutBehindFirstHolder | api/admin-sw.js:59-62 | writing `admin-cache-v1` does not change the answer for a URL whose first holder, and every cache before it, is another cache |
| AdminWorker.OwnStepsKeepOnlyOwnCache | api/admin-sw.js:27-39 | after activation only `admin-cache-v1` can exist, and the fetch handler, a refresh and install keep it that way; clearing then leaves no cache |
| AdminWorker.ClearAfterActivateEmpties | api/admin-sw.js:99-102 | after activation, `CLEAR_CACHE` leaves nothing for any URL to match |
| AdminWorker.ServiceWorker.Install | api/admin-sw.js:15-24 | the storage becomes `AfterInstall`; returns and records whether `addAll` succeeded; skips waiting only then |
| AdminWorker.ServiceWorker.Activate | api/admin-sw.js:27-40 | deletes the caches in `caches.keys` order in a loop; the storage becomes `Pruned`; clients are claimed |
| AdminWorker.ServiceWorker.HandleFetch | api/admin-sw.js:43-91 | reply and storage are those of `FetchOutcome`; a hit adds the URL to the in-flight refreshes |
| AdminWorker.ServiceWorker.CompleteRefresh | api/admin-sw.js:59-67 | the storage becomes `Refreshed`, and that refresh leaves the in-flight list |
| AdminWorker.Asks | api/admin-sw.js:95 | `event.data && event.data.type === kind`: the message has data whose type is that kind; `HandleMessage`'s contract is stated with it |
| AdminWorker.ServiceWorker.HandleMessage | api/admin-sw.js:94-104 | `SKIP_WAITING` sets only the skip flag; `CLEAR_CACHE` deletes exactly `admin-cache-v1` and replies `success` on `ports[0]` when a port was sent; anything else changes nothing |

## Left out

- Logging (`console.log`, api/admin-sw.js:19, 33) is not modelled.
- `event.waitUntil`, `event.respondWith` and promise scheduling are not modelled. Each handler is one atomic step. The asynchronous `cache.put` on a miss (api/admin-sw.js:75-77) and `caches.delete` before the acknowledgment (api/admin-sw.js:100-101) happen within that step.
- Races between events are not modelled. For example, a background refresh could overwrite an entry stored later by a foreground miss; the last write wins, in an order the browser decides.
- Cache API internals are not modelled. Requests are keyed by their URL string, with no normalisation of relative against absolute URLs, no `Vary` handling and no query matching options. Responses are immutable values, so `response.clone()` is the identity.
- AdminWorker.FetchAll: models `addAll` as fetch every URL, then store all or nothing. It does not model `addAll`'s extra rejection rules (for example `Vary: *`).
- AdminWorker.FetchOutcome and AdminWorker.Refreshed store every ok (2xx) response. They do not model `cache.put` rejecting a 206 partial response or one with `Vary: *`, which in the browser rejects the put's promise and stores nothing.
- The network and `caches.match` failures are parameters, not I/O.
- `self.skipWaiting()` and `self.clients.claim()` are flags. The worker lifecycle is not modelled: waiting, and becoming redundant when install fails.
- AdminWorker.ServiceWorker.constructor requires well-formed storage, with each cache name listed once in creation order. That is a property of the browser's cache storage, not a demand of the worker.
- AdminWorker.ServiceWorker.HandleMessage: a `CLEAR_CACHE` with no transferred port still deletes the cache. The reply step then throws inside a promise (api/admin-sw.js:101), which the model shows as no reply.
- AdminWorker.RefreshServesFresh requires that no other cache holds the URL. The browser only delivers fetch events to the worker after it has activated, and activation deletes every other cache (`AdminWorker.OwnStepsKeepOnlyOwnCache` shows the worker's own steps keep it that way), so the requirement holds only while no page and no other worker of the same origin writes cache storage, which all of them share. A page that re-creates another cache holding the URL after a `CLEAR_CACHE` breaks it even after activation; `AdminWorker.StaleShadows` shows that a cache ahead of `admin-cache-v1` then keeps answering.
- AdminWorker.FetchOutcome, with AdminWorker.MissAnswersFromNetwork and AdminWorker.MissThenServedFromCache, stores the miss-path response as api/admin-sw.js:73-77 intend. In a browser, `response.clone()` at line 76 runs in a later task, after `return response` at line 79 has settled the promise given to `respondWith`, which locks the response body. The late `clone()` would then throw, and nothing would be stored. The model takes `clone()` as the identity, so those two lemmas hold of the code as written, not of what a browser does with it. The refresh path's `clone()` at line 62 is of a response never given to `respondWith` and is not affected.

## Findings

| source | as written | input that shows it | evidently intended | confidence | as-written member | corrected member |
|---|---|---|---|---|---|---|
| api/admin-sw.js:7,48-50 | the allow-list entry `https://cdn.tailwindcss.com` is a bare origin, so stripping it leaves `""`, and every URL contains `""`; `isAdminResource` is true for every URL, and the worker intercepts every GET request of the site (and, as written, tries to cache it) | `https://tourney.test/index.html` is accepted | an entry that is only an origin is matched as the whole entry; the test accepts the allow-listed resources and URLs containing `/admin`, and rejects unrelated pages | not executed | AdminPolicy.EveryUrlIsAdminResource, AdminPolicy.IntendedRejectsUnrelated | AdminPolicy.IsAdminResourceIntended, with AdminPolicy.IntendedAcceptsAllowListed and AdminPolicy.IntendedRejectsWithoutA |

The fetch handler (`AdminWorker.FetchOutcome`) keeps the test as written,
because that is what the worker does. `AdminWorker.EveryGetIsIntercepted`
states what follows from the defect. The corrected test is defined and
proved beside it.
