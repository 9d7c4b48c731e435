/** The fixed caching policy of the admin-panel service worker: its two
    constants, the allow-list test that decides which GET requests it
    intercepts, and the install-time list of resources it pre-caches.
    Everything here is pure: strings are `seq<char>` and the JavaScript
    `String.prototype.includes` and the origin-stripping regular expression
    are written out as recursive functions with their meaning proved. */
module AdminPolicy {

  /** The one cache namespace this version of the worker owns. */
  const CACHE_NAME: string := "admin-cache-v1"

  // The absolute allow-list entries, spelled as origin + path so that the
  // proofs below can take them apart.
  const TAILWIND_ORIGIN: string := HTTPS + "cdn.tailwindcss.com"
  const CDNJS_ORIGIN: string := HTTPS + "cdnjs.cloudflare.com"
  const GSTATIC_ORIGIN: string := HTTPS + "www.gstatic.com"
  const FONT_AWESOME_PATH: string := "/ajax/libs/font-awesome/6.5.0/css/all.min.css"
  const FIREBASE_DIR: string := "/firebasejs/11.6.1/"

  /** https://cdn.tailwindcss.com */
  const TAILWIND_URL: string := TAILWIND_ORIGIN
  /** https://cdnjs.cloudflare.com/ajax/libs/font-awesome/6.5.0/css/all.min.css */
  const FONT_AWESOME_URL: string := CDNJS_ORIGIN + FONT_AWESOME_PATH
  /** https://www.gstatic.com/firebasejs/11.6.1/firebase-app.js */
  const FIREBASE_APP_URL: string := GSTATIC_ORIGIN + FIREBASE_DIR + "firebase-app.js"
  /** https://www.gstatic.com/firebasejs/11.6.1/firebase-auth.js */
  const FIREBASE_AUTH_URL: string := GSTATIC_ORIGIN + FIREBASE_DIR + "firebase-auth.js"
  /** https://www.gstatic.com/firebasejs/11.6.1/firebase-firestore.js */
  const FIREBASE_STORE_URL: string := GSTATIC_ORIGIN + FIREBASE_DIR + "firebase-firestore.js"

  /** The allow-list, in the order it is written. */
  const ADMIN_URLS: seq<string> := [
    "/admin",
    "/admin-t",
    "/admin-m.html",
    TAILWIND_URL,
    FONT_AWESOME_URL,
    FIREBASE_APP_URL,
    FIREBASE_AUTH_URL,
    FIREBASE_STORE_URL
  ]

  /** Allow-list entries containing this marker are not pre-cached. */
  const FIREBASE_MARKER: string := "firebase"

  /** Any URL containing this marker is an admin resource. */
  const ADMIN_MARKER: string := "/admin"

  // ---------------------------------------------------------------------
  // Substring search (`includes`)
  // ---------------------------------------------------------------------

  predicate StartsWith(s: string, p: string) {
    |p| <= |s| && s[..|p|] == p
  }

  /** `t` occurs in `s` starting at index `i`. */
  predicate OccursAt(s: string, t: string, i: int) {
    0 <= i && i + |t| <= |s| && s[i..i + |t|] == t
  }

  /** `s.includes(t)`: a left-to-right search for `t` in `s`. */
  function Contains(s: string, t: string): bool
    decreases |s|
  {
    if |t| > |s| then false
    else if s[..|t|] == t then true
    else Contains(s[1..], t)
  }

  /** The search finds `t` exactly when `t` occurs somewhere in `s`. */
  lemma {:induction false} ContainsIffOccurs(s: string, t: string)
    ensures Contains(s, t) <==> exists i :: OccursAt(s, t, i)
    decreases |s|
  {
    if |t| > |s| {
    } else if s[..|t|] == t {
      assert OccursAt(s, t, 0);
    } else {
      ContainsIffOccurs(s[1..], t);
      if Contains(s[1..], t) {
        var i :| OccursAt(s[1..], t, i);
        assert s[1..][i..i + |t|] == s[i + 1..i + 1 + |t|];
        assert OccursAt(s, t, i + 1);
      } else {
        forall i | OccursAt(s, t, i) ensures false {
          if i > 0 {
            assert s[1..][i - 1..i - 1 + |t|] == s[i..i + |t|];
            assert OccursAt(s[1..], t, i - 1);
          }
        }
      }
    }
  }

  /** Every string contains the empty string. */
  lemma ContainsEmpty(s: string)
    ensures Contains(s, "")
  {
  }

  /** Every string contains each of its suffixes. */
  lemma ContainsSuffix(s: string, k: nat)
    requires k <= |s|
    ensures Contains(s, s[k..])
  {
    assert OccursAt(s, s[k..], k);
    ContainsIffOccurs(s, s[k..]);
  }

  // ---------------------------------------------------------------------
  // Origin stripping: `adminUrl.replace(/^https?:\/\/[^\/]+/, '')`
  // ---------------------------------------------------------------------

  const HTTPS: string := "https://"
  const HTTP: string := "http://"

  /** What `[^\/]+` matches: one or more characters, none of them `/`. */
  predicate IsHost(h: string) {
    |h| > 0 && '/' !in h
  }

  /** What the whole pattern `^https?:\/\/[^\/]+` matches. */
  predicate IsOrigin(p: string) {
    || (StartsWith(p, HTTPS) && IsHost(p[|HTTPS|..]))
    || (StartsWith(p, HTTP) && IsHost(p[|HTTP|..]))
  }

  /** The greedy `[^\/]+` run: how many leading characters are not `/`. */
  function HostLength(s: string): (n: nat)
    ensures n <= |s|
    ensures '/' !in s[..n]
    ensures n < |s| ==> s[n] == '/'
  {
    if s == [] || s[0] == '/' then 0
    else
      var n := 1 + HostLength(s[1..]);
      assert s[..n] == [s[0]] + s[1..][..n - 1];
      n
  }

  /** Length of the prefix the regular expression removes (0 when it does not match). */
  function OriginLength(u: string): nat {
    var scheme := if StartsWith(u, HTTPS) then |HTTPS| else if StartsWith(u, HTTP) then |HTTP| else 0;
    if scheme == 0 then 0
    else
      var host := HostLength(u[scheme..]);
      if host == 0 then 0 else scheme + host
  }

  lemma PrefixStartsWith(u: string, j: nat, p: string)
    requires |p| <= j <= |u|
    ensures StartsWith(u[..j], p) <==> StartsWith(u, p)
  {
    assert u[..j][..|p|] == u[..|p|];
  }

  /** The regular expression cannot match both with and without the `s`. */
  lemma SchemesExclusive(u: string)
    ensures StartsWith(u, HTTPS) ==> !StartsWith(u, HTTP)
  {
    if StartsWith(u, HTTPS) {
      assert u[4] == HTTPS[4];
    }
  }

  /** A prefix `u[..j]` is an origin only if it uses a scheme `u` starts
      with and its host part is a non-empty run of non-`/` characters of `u`. */
  lemma OriginPrefixHost(u: string, j: nat)
    requires j <= |u|
    ensures StartsWith(u[..j], HTTPS) && IsHost(u[..j][|HTTPS|..]) ==>
      StartsWith(u, HTTPS) && |HTTPS| < j && '/' !in u[|HTTPS|..j]
    ensures StartsWith(u[..j], HTTP) && IsHost(u[..j][|HTTP|..]) ==>
      StartsWith(u, HTTP) && |HTTP| < j && '/' !in u[|HTTP|..j]
  {
    if j >= |HTTPS| {
      PrefixStartsWith(u, j, HTTPS);
      assert u[..j][|HTTPS|..] == u[|HTTPS|..j];
    }
    if j >= |HTTP| {
      PrefixStartsWith(u, j, HTTP);
      assert u[..j][|HTTP|..] == u[|HTTP|..j];
    }
  }

  /** No prefix of `u` longer than `k` is an origin when `u[k]` is a `/`
      that follows the scheme `u` starts with. */
  lemma NoLongerOrigin(u: string, k: nat, scheme: string)
    requires scheme == HTTPS || scheme == HTTP
    requires StartsWith(u, scheme) && (scheme == HTTP ==> !StartsWith(u, HTTPS))
    requires |scheme| <= k < |u| && u[k] == '/'
    ensures forall j :: k < j <= |u| ==> !IsOrigin(u[..j])
  {
    SchemesExclusive(u);
    forall j | k < j <= |u| ensures !IsOrigin(u[..j]) {
      OriginPrefixHost(u, j);
      assert u[|scheme|..j][k - |scheme|] == '/';
    }
  }

  /** OriginLength finds the longest origin prefix of `u`, and none when there is none. */
  lemma OriginLengthIsLongestMatch(u: string)
    ensures OriginLength(u) <= |u|
    ensures OriginLength(u) > 0 ==> IsOrigin(u[..OriginLength(u)])
    ensures forall j :: OriginLength(u) < j <= |u| ==> !IsOrigin(u[..j])
  {
    var k := OriginLength(u);
    if !StartsWith(u, HTTPS) && !StartsWith(u, HTTP) {
      forall j | 0 < j <= |u| ensures !IsOrigin(u[..j]) {
        if j >= |HTTP| {
          PrefixStartsWith(u, j, HTTP);
        }
        if j >= |HTTPS| {
          PrefixStartsWith(u, j, HTTPS);
        }
      }
    } else {
      var scheme := if StartsWith(u, HTTPS) then HTTPS else HTTP;
      var host := HostLength(u[|scheme|..]);
      if host == |u| - |scheme| {
        // The host runs to the end of `u`: no prefix is longer than the match.
        if host > 0 {
          assert u[..k] == u;
          assert u[|scheme|..] == u[|scheme|..][..host];
        } else {
          forall j | 0 < j <= |u| ensures !IsOrigin(u[..j]) {
            OriginPrefixHost(u, j);
          }
        }
      } else {
        NoLongerOrigin(u, |scheme| + host, scheme);
        if host > 0 {
          PrefixStartsWith(u, k, scheme);
          assert u[..k][|scheme|..] == u[|scheme|..][..host];
        }
      }
    }
  }

  /** `entry.replace(/^https?:\/\/[^\/]+/, '')`: removes the longest prefix of
      the form `http://host` or `https://host` (host a non-empty run of
      characters other than `/`), and leaves `u` alone when no prefix has
      that form. */
  function StripOrigin(u: string): (r: string)
    ensures |r| <= |u| && r == u[|u| - |r|..]
  {
    OriginLengthIsLongestMatch(u);
    u[OriginLength(u)..]
  }

  /** What StripOrigin removes is exactly what the regular expression
      matches: the longest origin prefix, or nothing when there is none. */
  lemma StripOriginRemovesLongestOrigin(u: string)
    ensures var k := |u| - |StripOrigin(u)|;
      && (k > 0 ==> IsOrigin(u[..k]))
      && (forall j :: k < j <= |u| ==> !IsOrigin(u[..j]))
  {
    OriginLengthIsLongestMatch(u);
  }

  /** A path-relative entry such as `/admin` is left unchanged. */
  lemma StripOriginKeepsRelative(u: string)
    requires |u| > 0 && u[0] == '/'
    ensures StripOrigin(u) == u
  {
    StripOriginRemovesLongestOrigin(u);
  }

  /** An origin followed by a path (or by nothing) is stripped to exactly that path. */
  lemma StripOriginKeepsPath(origin: string, path: string)
    requires IsOrigin(origin)
    requires path == [] || path[0] == '/'
    ensures StripOrigin(origin + path) == path
  {
    var u := origin + path;
    assert u[..|origin|] == origin;
    StripOriginRemovesLongestOrigin(u);
  }

  // ---------------------------------------------------------------------
  // Facts about literal strings
  // ---------------------------------------------------------------------

  /** `t` does not occur in `s` when one of its characters is missing from `s`. */
  lemma MissingCharExcludes(s: string, t: string, k: nat)
    requires k < |t| && t[k] !in s
    ensures !Contains(s, t)
  {
    ContainsIffOccurs(s, t);
  }

  /** `t` does not occur in `p + [c] + q` when its `k`-th character `c`
      occurs only between `p` and `q` and the occurrence that would line up
      with it starts with the wrong character. */
  lemma AnchorExcludes(p: string, c: char, q: string, t: string, k: nat)
    requires 0 < k < |t| && t[k] == c
    requires c !in p && c !in q
    requires k <= |p| ==> t[0] != p[|p| - k]
    ensures !Contains(p + [c] + q, t)
  {
    var s := p + [c] + q;
    ContainsIffOccurs(s, t);
    forall i | OccursAt(s, t, i) ensures false {
    }
  }

  /** `t` occurs in `a + t + b`. */
  lemma ContainsInfix(a: string, t: string, b: string)
    ensures Contains(a + t + b, t)
  {
    var s := a + t + b;
    assert s[|a|..|a| + |t|] == t;
    assert OccursAt(s, t, |a|);
    ContainsIffOccurs(s, t);
  }

  lemma HttpsOrigin(host: string)
    requires IsHost(host)
    ensures IsOrigin(HTTPS + host)
  {
    assert (HTTPS + host)[..|HTTPS|] == HTTPS;
    assert (HTTPS + host)[|HTTPS|..] == host;
  }

  // ---------------------------------------------------------------------
  // How the allow-list entries strip
  // ---------------------------------------------------------------------

  /** The allow-list's bare Tailwind origin strips to the empty string. */
  lemma TailwindStripsToEmpty()
    ensures StripOrigin(TAILWIND_URL) == ""
  {
    HttpsOrigin("cdn.tailwindcss.com");
    assert TAILWIND_URL + "" == TAILWIND_URL;
    StripOriginKeepsPath(TAILWIND_URL, "");
  }

  function FirebasePath(file: string): string {
    FIREBASE_DIR + file
  }

  /** What each allow-list entry strips to: the three relative entries are
      unchanged, Tailwind becomes empty, the others lose their origin. */
  lemma AllowListPatterns()
    ensures StripOrigin("/admin") == "/admin"
    ensures StripOrigin("/admin-t") == "/admin-t"
    ensures StripOrigin("/admin-m.html") == "/admin-m.html"
    ensures StripOrigin(TAILWIND_URL) == ""
    ensures StripOrigin(FONT_AWESOME_URL) == FONT_AWESOME_PATH
    ensures StripOrigin(FIREBASE_APP_URL) == FirebasePath("firebase-app.js")
    ensures StripOrigin(FIREBASE_AUTH_URL) == FirebasePath("firebase-auth.js")
    ensures StripOrigin(FIREBASE_STORE_URL) == FirebasePath("firebase-firestore.js")
  {
    StripOriginKeepsRelative("/admin");
    StripOriginKeepsRelative("/admin-t");
    StripOriginKeepsRelative("/admin-m.html");
    TailwindStripsToEmpty();
    FontAwesomeStripsToPath();
    FirebaseStripsToPath("firebase-app.js");
    FirebaseStripsToPath("firebase-auth.js");
    FirebaseStripsToPath("firebase-firestore.js");
  }

  /** The Font Awesome path around its only `b`. */
  lemma FontAwesomePathParts()
    ensures FONT_AWESOME_PATH == "/ajax/li" + ['b'] + "s/font-awesome/6.5.0/css/all.min.css"
  {
  }

  lemma FontAwesomeStripsToPath()
    ensures StripOrigin(FONT_AWESOME_URL) == FONT_AWESOME_PATH
  {
    HttpsOrigin("cdnjs.cloudflare.com");
    FontAwesomePathParts();
    StripOriginKeepsPath(CDNJS_ORIGIN, FONT_AWESOME_PATH);
  }

  lemma FirebaseStripsToPath(file: string)
    ensures StripOrigin(GSTATIC_ORIGIN + FIREBASE_DIR + file) == FirebasePath(file)
  {
    HttpsOrigin("www.gstatic.com");
    assert GSTATIC_ORIGIN + FIREBASE_DIR + file == GSTATIC_ORIGIN + FirebasePath(file);
    StripOriginKeepsPath(GSTATIC_ORIGIN, FirebasePath(file));
  }

  // ---------------------------------------------------------------------
  // The allow-list test of the fetch handler
  // ---------------------------------------------------------------------

  /** The patterns the handler searches for: each entry with its origin stripped. */
  function Patterns(entries: seq<string>): (ps: seq<string>)
    ensures |ps| == |entries|
    ensures forall i :: 0 <= i < |entries| ==> ps[i] == StripOrigin(entries[i])
  {
    seq(|entries|, i requires 0 <= i < |entries| => StripOrigin(entries[i]))
  }

  /** `patterns.some(p => url.includes(p))`, scanning left to right. */
  function ContainsAny(url: string, patterns: seq<string>): bool {
    if patterns == [] then false
    else Contains(url, patterns[0]) || ContainsAny(url, patterns[1..])
  }

  lemma {:induction false} ContainsAnyIff(url: string, patterns: seq<string>)
    ensures ContainsAny(url, patterns) <==> exists i :: 0 <= i < |patterns| && Contains(url, patterns[i])
  {
    if patterns != [] {
      ContainsAnyIff(url, patterns[1..]);
      if ContainsAny(url, patterns[1..]) {
        var i :| 0 <= i < |patterns| - 1 && Contains(url, patterns[1..][i]);
        assert Contains(url, patterns[i + 1]);
      }
      forall i | 0 <= i < |patterns| && Contains(url, patterns[i]) ensures ContainsAny(url, patterns) {
        if i > 0 {
          assert patterns[1..][i - 1] == patterns[i];
        }
      }
    }
  }

  /** `isAdminResource` exactly as written: some allow-list entry, origin
      stripped, occurs in the URL, or the URL contains `/admin`. */
  predicate IsAdminResource(url: string) {
    ContainsAny(url, Patterns(ADMIN_URLS)) || Contains(url, ADMIN_MARKER)
  }

  /** The allow-list test holds of every URL: the Tailwind entry strips to
      the empty pattern and every URL contains the empty string. */
  lemma EveryUrlIsAdminResource(url: string)
    ensures IsAdminResource(url)
  {
    var ps := Patterns(ADMIN_URLS);
    TailwindStripsToEmpty();
    assert ps[3] == StripOrigin(ADMIN_URLS[3]) == "";
    ContainsEmpty(url);
    ContainsAnyIff(url, ps);
  }

  /** The evidently intended pattern: an entry that is nothing but an origin
      is searched for whole, not as the empty string it strips to. */
  function IntendedPattern(entry: string): (p: string)
    ensures entry != "" ==> p != ""
    ensures Contains(entry, p)
  {
    var stripped := StripOrigin(entry);
    ContainsSuffix(entry, |entry| - |stripped|);
    if stripped == "" then (ContainsSuffix(entry, 0); entry) else stripped
  }

  function IntendedPatterns(entries: seq<string>): (ps: seq<string>)
    ensures |ps| == |entries|
    ensures forall i :: 0 <= i < |entries| ==> ps[i] == IntendedPattern(entries[i])
  {
    seq(|entries|, i requires 0 <= i < |entries| => IntendedPattern(entries[i]))
  }

  /** The allow-list test with the empty-pattern defect corrected. */
  predicate IsAdminResourceIntended(url: string) {
    ContainsAny(url, IntendedPatterns(ADMIN_URLS)) || Contains(url, ADMIN_MARKER)
  }

  /** The corrected test still accepts every allow-listed URL itself. */
  lemma IntendedAcceptsAllowListed(i: nat)
    requires i < |ADMIN_URLS|
    ensures IsAdminResourceIntended(ADMIN_URLS[i])
  {
    var ps := IntendedPatterns(ADMIN_URLS);
    assert Contains(ADMIN_URLS[i], ps[i]);
    ContainsAnyIff(ADMIN_URLS[i], ps);
  }

  lemma IntendedPatternOfPath(path: string)
    requires |path| > 0 && path[0] == '/'
    ensures IntendedPattern(path) == path
  {
    StripOriginKeepsRelative(path);
  }

  lemma IntendedPatternOfTailwind()
    ensures IntendedPattern(TAILWIND_URL) == TAILWIND_URL
  {
    TailwindStripsToEmpty();
  }

  lemma IntendedPatternOfFontAwesome()
    ensures IntendedPattern(FONT_AWESOME_URL) == FONT_AWESOME_PATH
  {
    FontAwesomeStripsToPath();
    FontAwesomePathParts();
  }

  lemma IntendedPatternOfFirebase(file: string)
    ensures IntendedPattern(GSTATIC_ORIGIN + FIREBASE_DIR + file) == FirebasePath(file)
  {
    FirebaseStripsToPath(file);
  }

  /** Every corrected pattern, and the `/admin` marker, contains an `a`. */
  lemma IntendedPatternHasA(i: nat)
    requires i < |ADMIN_URLS|
    ensures 'a' in IntendedPattern(ADMIN_URLS[i])
  {
    var e := ADMIN_URLS[i];
    if i < 3 {
      assert 'a' in IntendedPattern(e) by {
        assert e[0] == '/' && e[1] == 'a';
        IntendedPatternOfPath(e);
      }
    } else if i == 3 {
      assert 'a' in IntendedPattern(e) by {
        assert e == TAILWIND_URL && e[13] == 'a';
        IntendedPatternOfTailwind();
      }
    } else if i == 4 {
      assert 'a' in IntendedPattern(e) by {
        assert e == FONT_AWESOME_URL;
        IntendedPatternOfFontAwesome();
        FontAwesomePathParts();
        assert FONT_AWESOME_PATH[1] == 'a';
      }
    } else {
      var file := if i == 5 then "firebase-app.js" else if i == 6 then "firebase-auth.js" else "firebase-firestore.js";
      assert 'a' in IntendedPattern(e) by {
        assert e == GSTATIC_ORIGIN + FIREBASE_DIR + file;
        IntendedPatternOfFirebase(file);
        assert 'a' in FIREBASE_DIR;
        assert FirebasePath(file)[..|FIREBASE_DIR|] == FIREBASE_DIR;
      }
    }
  }

  lemma CharExcludes(url: string, t: string, c: char)
    requires c in t && c !in url
    ensures !Contains(url, t)
  {
    var k :| 0 <= k < |t| && t[k] == c;
    MissingCharExcludes(url, t, k);
  }

  /** The corrected test rejects every URL without the letter `a`, since
      every corrected pattern and the `/admin` marker contain one. */
  lemma IntendedRejectsWithoutA(url: string)
    requires 'a' !in url
    ensures !IsAdminResourceIntended(url)
  {
    var ps := IntendedPatterns(ADMIN_URLS);
    forall i | 0 <= i < |ps| ensures !Contains(url, ps[i]) {
      IntendedPatternHasA(i);
      CharExcludes(url, ps[i], 'a');
    }
    ContainsAnyIff(url, ps);
    assert ADMIN_MARKER[1] == 'a';
    CharExcludes(url, ADMIN_MARKER, 'a');
  }

  /** A page of the same site that has nothing to do with the admin panel:
      the test as written accepts it, the corrected test rejects it. */
  lemma IntendedRejectsUnrelated()
    ensures IsAdminResource("https://tourney.test/index.html")
    ensures !IsAdminResourceIntended("https://tourney.test/index.html")
  {
    var url := "https://tourney.test/index.html";
    EveryUrlIsAdminResource(url);
    assert 'a' !in url;
    IntendedRejectsWithoutA(url);
  }

  // ---------------------------------------------------------------------
  // The install list
  // ---------------------------------------------------------------------

  /** `urls.filter(url => !url.includes('firebase'))`. */
  function WithoutFirebase(urls: seq<string>): (r: seq<string>)
    ensures |r| <= |urls|
    ensures forall u :: u in r <==> u in urls && !Contains(u, FIREBASE_MARKER)
  {
    if urls == [] then []
    else if Contains(urls[0], FIREBASE_MARKER) then WithoutFirebase(urls[1..])
    else [urls[0]] + WithoutFirebase(urls[1..])
  }

  /** The resources the install step pre-caches. */
  function InstallUrls(): seq<string> {
    WithoutFirebase(ADMIN_URLS)
  }

  /** Font Awesome's only `b` is in `libs`, preceded by `x/li` rather than
      the `fire` of the marker. */
  lemma FontAwesomeNotFirebase()
    ensures !Contains(FONT_AWESOME_URL, FIREBASE_MARKER)
  {
    var p, q := CDNJS_ORIGIN + "/ajax/li", "s/font-awesome/6.5.0/css/all.min.css";
    FontAwesomePathParts();
    assert FONT_AWESOME_URL == p + ['b'] + q;
    assert p[|p| - 4] == 'x';
    AnchorExcludes(p, 'b', q, FIREBASE_MARKER, 4);
  }

  lemma FirebaseScriptIsFirebase(name: string)
    ensures Contains(GSTATIC_ORIGIN + FIREBASE_DIR + FIREBASE_MARKER + name, FIREBASE_MARKER)
  {
    ContainsInfix(GSTATIC_ORIGIN + FIREBASE_DIR, FIREBASE_MARKER, name);
  }

  /** The first five allow-list entries lack the Firebase marker. */
  lemma NotFirebaseBelowFive(i: nat)
    requires i < 5
    ensures !Contains(ADMIN_URLS[i], FIREBASE_MARKER)
  {
    var e := ADMIN_URLS[i];
    assert 'f' in FIREBASE_MARKER;
    if i < 3 {
      assert e == "/admin" || e == "/admin-t" || e == "/admin-m.html";
      assert 'f' !in e;
      CharExcludes(e, FIREBASE_MARKER, 'f');
    } else if i == 3 {
      assert e == HTTPS + "cdn.tailwindcss.com";
      assert 'f' !in e;
      CharExcludes(e, FIREBASE_MARKER, 'f');
    } else {
      assert e == FONT_AWESOME_URL;
      FontAwesomeNotFirebase();
    }
  }

  /** The last three allow-list entries carry the Firebase marker. */
  lemma FirebaseFromFive(i: nat)
    requires 5 <= i < |ADMIN_URLS|
    ensures Contains(ADMIN_URLS[i], FIREBASE_MARKER)
  {
    var e := ADMIN_URLS[i];
    var name := if i == 5 then "-app.js" else if i == 6 then "-auth.js" else "-firestore.js";
    assert FIREBASE_MARKER + name == if i == 5 then "firebase-app.js" else if i == 6 then "firebase-auth.js" else "firebase-firestore.js";
    assert e == GSTATIC_ORIGIN + FIREBASE_DIR + FIREBASE_MARKER + name;
    FirebaseScriptIsFirebase(name);
  }

  /** Filtering a list whose first `k` entries lack the marker and whose
      remaining entries carry it keeps exactly those first `k`. */
  lemma {:induction false} WithoutFirebaseKeepsPrefix(urls: seq<string>, k: nat)
    requires k <= |urls|
    requires forall i :: 0 <= i < k ==> !Contains(urls[i], FIREBASE_MARKER)
    requires forall i :: k <= i < |urls| ==> Contains(urls[i], FIREBASE_MARKER)
    ensures WithoutFirebase(urls) == urls[..k]
  {
    if urls != [] {
      var rest := urls[1..];
      if k == 0 {
        WithoutFirebaseKeepsPrefix(rest, 0);
      } else {
        WithoutFirebaseKeepsPrefix(rest, k - 1);
        assert urls[..k] == [urls[0]] + rest[..k - 1];
      }
    }
  }

  /** The install list is the first five allow-list entries, in list order:
      the three admin pages, Tailwind and Font Awesome; none of the three
      Firebase scripts. */
  lemma InstallUrlsAreFirstFive()
    ensures InstallUrls() == ADMIN_URLS[..5]
    ensures FIREBASE_APP_URL !in InstallUrls()
    ensures FIREBASE_AUTH_URL !in InstallUrls()
    ensures FIREBASE_STORE_URL !in InstallUrls()
  {
    var u := ADMIN_URLS;
    forall i | 0 <= i < 5 ensures !Contains(u[i], FIREBASE_MARKER) {
      NotFirebaseBelowFive(i);
    }
    forall i | 5 <= i < |u| ensures Contains(u[i], FIREBASE_MARKER) {
      FirebaseFromFive(i);
    }
    WithoutFirebaseKeepsPrefix(u, 5);
    assert u[5] == FIREBASE_APP_URL && u[6] == FIREBASE_AUTH_URL && u[7] == FIREBASE_STORE_URL;
  }
}
