/**
 * `proxy.ts`: the request proxy in front of every page.  It rate-limits the
 * sign-in routes per client address, guards `/studio` with Basic
 * authentication (section 2 of RFC 7617), and picks the interface language:
 * from a path prefix such as `/ja/...` (which it then rewrites away), else
 * from `?lang=`, else from `Accept-Language`, else English.
 *
 * Request headers are a map from lower-case names to values.  The clock is
 * the parameter `now`; both `Date.now()` readings of one request see the
 * same instant.  `atob` is a parameter that gives `None` where the browser
 * function throws.
 */
module Proxy {
  import opened Common
  import opened Text
  import opened I18n
  import RateLimiter
  import Middleware

  type Store = map<string, seq<int>>

  /** At most 20 sign-in requests per address per minute. */
  const AuthRateLimit := 20
  const AuthWindowMs := 60_000
  /** Five minutes between two clean-ups of the sign-in store. */
  const AuthCleanupIntervalMs := 5 * 60 * 1000

  const AuthPrefix := "/api/auth"
  const StudioPrefix := "/studio"

  /** The challenge every refusal of `/studio` carries. */
  const Challenge: map<string, string> := map["WWW-Authenticate" := "Basic realm=\"Speak Mango Admin\""]

  /** The JSON body of the 429 reply. */
  const TooManyRequestsBody := "{\"error\":\"Too Many Requests\",\"message\":\"Too many requests. Please try again later.\"}"

  /** What the proxy answers: a reply of its own, the request passed on
    * untouched, passed on with new request headers, or rewritten to another
    * path with new request headers. */
  datatype Response =
    | Reply(status: int, body: string, headers: map<string, string>)
    | PassThrough
    | Next(requestHeaders: map<string, string>)
    | Rewrite(pathname: string, requestHeaders: map<string, string>)

  /** The 429 reply of section 4 of RFC 6585, asking the client to wait a minute. */
  const TooManyRequests := Reply(429, TooManyRequestsBody, map["Content-Type" := "application/json", "Retry-After" := "60"])

  function Unauthorized(message: string): Response {
    Reply(401, message, Challenge)
  }

  /** The parts of a request the proxy reads.  `queryLang` is
    * `searchParams.get("lang")`. */
  datatype Request = Request(pathname: string, url: string, headers: map<string, string>, queryLang: Option<string>)

  /** `process.env.ADMIN_USER` and `process.env.ADMIN_PASSWORD`; an unset
    * variable is `None`. */
  datatype Env = Env(adminUser: Option<string>, adminPassword: Option<string>)

  function Header(headers: map<string, string>, name: string): Option<string> {
    if name in headers then Some(headers[name]) else None
  }

  // ----------------------------------------------------------- client address

  /** `x-forwarded-for.split(",")[0].trim()`. */
  function FirstForwarded(forwarded: string): string {
    Trim(Split(forwarded, ",")[0])
  }

  /** The client address: the first `x-forwarded-for` entry when it is not
    * blank, else a non-empty `x-real-ip`, else `unknown`. */
  function ClientIp(headers: map<string, string>): (ip: string)
    ensures ip != ""
    ensures "x-forwarded-for" in headers && FirstForwarded(headers["x-forwarded-for"]) != "" ==>
      ip == FirstForwarded(headers["x-forwarded-for"])
    ensures ("x-forwarded-for" !in headers || FirstForwarded(headers["x-forwarded-for"]) == "") ==>
      ip == if "x-real-ip" in headers && headers["x-real-ip"] != "" then headers["x-real-ip"] else "unknown"
  {
    var forwarded := if "x-forwarded-for" in headers then FirstForwarded(headers["x-forwarded-for"]) else "";
    if forwarded != "" then forwarded
    else if "x-real-ip" in headers && headers["x-real-ip"] != "" then headers["x-real-ip"]
    else "unknown"
  }

  /** Of a list of proxies the first, the client, is taken. */
  lemma ClientIpFirstEntry(client: string, proxies: string)
    requires ',' !in client && Trim(client) != ""
    ensures FirstForwarded(client + "," + proxies) == Trim(client)
    ensures ClientIp(map["x-forwarded-for" := client + "," + proxies]) == Trim(client)
  {
    assert client + "," + proxies == client + [','] + proxies;
    SplitCharCons(client, proxies, ',');
  }

  // ---------------------------------------------------------- sign-in limiter

  /** The sign-in requests of the last minute before `now` stored for an address. */
  function RecentAuth(store: Store, ip: string, now: int): seq<int> {
    RateLimiter.InWindow(RateLimiter.Stored(store, ip), now - AuthWindowMs)
  }

  /** The store after `cleanupAuthStoreIfNeeded` at `now`. */
  function AuthCleaned(store: Store, lastCleanup: int, now: int): Store {
    if now - lastCleanup < AuthCleanupIntervalMs then store
    else RateLimiter.Cleaned(store, now - AuthWindowMs)
  }

  /** The store after `isAuthRateLimited(ip)` on the cleaned store: the
    * address keeps its requests of the last minute, plus `now` when it was
    * not limited. */
  function AfterAuthCheck(cleaned: Store, ip: string, now: int): Store {
    var valid := RecentAuth(cleaned, ip, now);
    if |valid| >= AuthRateLimit then cleaned[ip := valid] else cleaned[ip := valid + [now]]
  }

  /** Neither outcome keeps more than 20 requests from the last minute, and
    * every other address is left as the clean-up left it. */
  lemma AuthCheckBounded(cleaned: Store, ip: string, now: int, other: string)
    ensures var after := AfterAuthCheck(cleaned, ip, now);
      (|RecentAuth(cleaned, ip, now)| < AuthRateLimit ==>
        |after[ip]| <= AuthRateLimit && after[ip][|after[ip]| - 1] == now)
      && (|RecentAuth(cleaned, ip, now)| >= AuthRateLimit ==> after[ip] == RecentAuth(cleaned, ip, now))
      && (forall t :: t in after[ip] ==> t in RateLimiter.Stored(cleaned, ip) || t == now)
      && (other != ip ==> RateLimiter.Stored(after, other) == RateLimiter.Stored(cleaned, other))
  {
    RateLimiter.InWindowMembers(RateLimiter.Stored(cleaned, ip), now - AuthWindowMs);
  }

  /** A limited address stays limited for the rest of the instant: checking
    * it again at the same `now` finds the same requests and adds none. */
  lemma LimitedStaysLimited(cleaned: Store, ip: string, now: int)
    requires |RecentAuth(cleaned, ip, now)| >= AuthRateLimit
    ensures RecentAuth(AfterAuthCheck(cleaned, ip, now), ip, now) == RecentAuth(cleaned, ip, now)
  {
    RateLimiter.InWindowIdempotent(RateLimiter.Stored(cleaned, ip), now - AuthWindowMs);
  }

  // ----------------------------------------------------------- studio access

  datatype AuthOutcome = Authorized | Rejected(message: string)

  /** The `/studio` guard.  The credentials are the second space-separated
    * word of the header (`undefined`, decoded as the text "undefined", when
    * there is none), base64-decoded and split at every `:`; the user is the
    * first piece and the password the second, if any, and each is compared
    * with `===` to its environment variable. */
  function StudioAuth(authorization: Option<string>, env: Env, atob: string -> Option<string>): (r: AuthOutcome)
    ensures authorization.None? || authorization == Some("") ==> r == Rejected("Authentication required")
    ensures r.Rejected? ==> r.message in {"Authentication required", "Authentication failed", "Invalid credentials"}
    ensures r.Authorized? ==> env.adminUser.Some?
  {
    if authorization.None? || authorization.value == "" then Rejected("Authentication required")
    else
      var words := Split(authorization.value, " ");
      var authValue := if |words| > 1 then words[1] else "undefined";
      match atob(authValue)
      case None => Rejected("Authentication failed")
      case Some(decoded) =>
        var fields := Split(decoded, ":");
        var user := fields[0];
        var pwd := if |fields| > 1 then Some(fields[1]) else None;
        if Some(user) == env.adminUser && pwd == env.adminPassword then Authorized
        else Rejected("Invalid credentials")
  }

  /** `Basic <token>` where the token decodes to the configured
    * `user:password` is let through. */
  lemma StudioAcceptsCredentials(token: string, user: string, pwd: string, atob: string -> Option<string>)
    requires ' ' !in token && ':' !in user && ':' !in pwd
    requires atob(token) == Some(user + ":" + pwd)
    ensures StudioAuth(Some("Basic " + token), Env(Some(user), Some(pwd)), atob) == Authorized
  {
    assert "Basic " + token == "Basic" + [' '] + token;
    SplitCharCons("Basic", token, ' ');
    SplitCharNone(token, ' ');
    assert user + ":" + pwd == user + [':'] + pwd;
    SplitCharCons(user, pwd, ':');
    SplitCharNone(pwd, ':');
  }

  /** Credentials that decode to another user or password are refused as
    * invalid, and a token that does not decode as failed. */
  lemma StudioRefusesOthers(token: string, user: string, pwd: string, env: Env, atob: string -> Option<string>)
    requires ' ' !in token && ':' !in user && ':' !in pwd
    ensures atob(token) == Some(user + ":" + pwd) && (env.adminUser != Some(user) || env.adminPassword != Some(pwd)) ==>
      StudioAuth(Some("Basic " + token), env, atob) == Rejected("Invalid credentials")
    ensures atob(token).None? ==> StudioAuth(Some("Basic " + token), env, atob) == Rejected("Authentication failed")
  {
    assert "Basic " + token == "Basic" + [' '] + token;
    SplitCharCons("Basic", token, ' ');
    SplitCharNone(token, ' ');
    assert user + ":" + pwd == user + [':'] + pwd;
    SplitCharCons(user, pwd, ':');
    SplitCharNone(pwd, ':');
  }

  /** With `ADMIN_PASSWORD` unset, credentials without a `:` compare an
    * absent password with an absent variable, so the user name alone is let
    * through. */
  lemma UnsetPasswordAcceptsUserAlone(token: string, user: string, atob: string -> Option<string>)
    requires ' ' !in token && ':' !in user
    requires atob(token) == Some(user)
    ensures StudioAuth(Some("Basic " + token), Env(Some(user), None), atob) == Authorized
  {
    assert "Basic " + token == "Basic" + [' '] + token;
    SplitCharCons("Basic", token, ' ');
    SplitCharNone(token, ' ');
    SplitCharNone(user, ':');
  }

  // ------------------------------------------------------------ path locale

  /** The path is `/<lang>` or lies under `/<lang>/`. */
  predicate MatchesLocale(pathname: string, lang: string) {
    pathname == "/" + lang || StartsWith(pathname, "/" + lang + "/")
  }

  /** The first of `langs`, other than the default, that prefixes the path. */
  function PathLocale(langs: seq<string>, pathname: string): Option<string>
    decreases |langs|
  {
    if langs == [] then None
    else if langs[0] != DefaultLocale && MatchesLocale(pathname, langs[0]) then Some(langs[0])
    else PathLocale(langs[1..], pathname)
  }

  /** `pathname.replace("/<lang>", "") || "/"`. */
  function StripLocale(pathname: string, lang: string): string {
    var rest := ReplaceFirst(pathname, "/" + lang, "");
    if rest == "" then "/" else rest
  }

  /** Over the supported languages the path locale is Korean, Japanese or
    * Spanish, tried in that order; English is never read from a path. */
  lemma PathLocaleOrder(pathname: string)
    ensures PathLocale(SupportedLanguages, pathname) ==
      if MatchesLocale(pathname, "ko") then Some("ko")
      else if MatchesLocale(pathname, "ja") then Some("ja")
      else if MatchesLocale(pathname, "es") then Some("es")
      else None
  {
    var s := SupportedLanguages;
    assert s[1..] == ["ko", "ja", "es"];
    assert s[1..][1..] == ["ja", "es"];
    assert s[1..][1..][1..] == ["es"];
    assert s[1..][1..][1..][1..] == [];
  }

  /** Removing the prefix leaves the rest of the path, and `/` for the bare prefix. */
  lemma StripLocaleRest(pathname: string, lang: string)
    requires MatchesLocale(pathname, lang)
    ensures pathname == "/" + lang ==> StripLocale(pathname, lang) == "/"
    ensures pathname != "/" + lang ==>
      pathname == "/" + lang + StripLocale(pathname, lang) && StartsWith(StripLocale(pathname, lang), "/")
  {
    var p := "/" + lang;
    assert IsAt(pathname, p, 0) by {
      if pathname != p {
        assert pathname[..|p + "/"|] == p + "/";
        assert pathname[..|p|] == (p + "/")[..|p|];
      }
    }
    assert IndexOf(pathname, p) == 0;
    var rest := pathname[|p|..];
    assert ReplaceFirst(pathname, p, "") == [] + "" + rest;
    assert pathname == p + rest;
    if pathname != p {
      assert rest[0] == pathname[|p|] == (p + "/")[|p|];
    }
  }

  /** `for (const lang of SUPPORTED_LANGUAGES)`: the path locale, and the
    * path with its prefix removed. */
  method DetectPathLocale(pathname: string) returns (isPathLocale: bool, detectedLocale: string, newPathname: string)
    ensures isPathLocale <==> PathLocale(SupportedLanguages, pathname).Some?
    ensures isPathLocale ==>
      detectedLocale == PathLocale(SupportedLanguages, pathname).value && newPathname == StripLocale(pathname, detectedLocale)
    ensures !isPathLocale ==> detectedLocale == DefaultLocale && newPathname == pathname
  {
    detectedLocale := DefaultLocale;
    isPathLocale := false;
    newPathname := pathname;
    var i := 0;
    while i < |SupportedLanguages|
      invariant 0 <= i <= |SupportedLanguages|
      invariant PathLocale(SupportedLanguages, pathname) == PathLocale(SupportedLanguages[i..], pathname)
      invariant detectedLocale == DefaultLocale && newPathname == pathname
    {
      var lang := SupportedLanguages[i];
      assert SupportedLanguages[i..][0] == lang && SupportedLanguages[i..][1..] == SupportedLanguages[i + 1..];
      if lang == DefaultLocale {
        i := i + 1;
        continue;
      }
      if pathname == "/" + lang || StartsWith(pathname, "/" + lang + "/") {
        detectedLocale := lang;
        isPathLocale := true;
        newPathname := ReplaceFirst(pathname, "/" + lang, "");
        if newPathname == "" {
          newPathname := "/";
        }
        return;
      }
      i := i + 1;
    }
  }

  // ---------------------------------------------------- query and header locale

  /** Without a path locale: a supported `?lang`, else the primary subtag of
    * the first `Accept-Language` entry when it is supported, else English. */
  function FallbackLocale(queryLang: Option<string>, acceptLanguage: Option<string>): (r: string)
    ensures r in SupportedLanguages
    ensures IsSupportedLocale(queryLang) ==> r == queryLang.value
    ensures !IsSupportedLocale(queryLang) && (acceptLanguage.None? || acceptLanguage == Some("")) ==> r == DefaultLocale
    ensures !IsSupportedLocale(queryLang) && acceptLanguage.Some? && acceptLanguage.value != "" ==>
      r == if IsSupportedLocale(Some(Middleware.PreferredLocale(acceptLanguage.value)))
        then Middleware.PreferredLocale(acceptLanguage.value) else DefaultLocale
  {
    if IsSupportedLocale(queryLang) then queryLang.value
    else if acceptLanguage.Some? && acceptLanguage.value != ""
      && IsSupportedLocale(Some(Middleware.PreferredLocale(acceptLanguage.value)))
    then Middleware.PreferredLocale(acceptLanguage.value)
    else DefaultLocale
  }

  /** A shared link's `?lang=es` beats a Japanese browser, and an English
    * browser, unlike under the older middleware, gets English. */
  lemma FallbackExamples()
    ensures FallbackLocale(Some("es"), Some("ja-JP,ja;q=0.9")) == "es"
    ensures FallbackLocale(Some("fr"), None) == "en"
  {
  }

  /** A Japanese browser without a usable `?lang` gets Japanese. */
  lemma FallbackFromHeader(queryLang: Option<string>)
    requires !IsSupportedLocale(queryLang)
    ensures FallbackLocale(queryLang, Some("ja-JP,ja;q=0.9")) == "ja"
  {
    assert "ja-JP,ja;q=0.9" == "ja" + "-" + "JP,ja;q=0.9";
    Middleware.PreferredLowerTag("ja", "JP,ja;q=0.9");
  }

  /** The response for a request past the sign-in and studio checks: the
    * request headers gain `x-locale` and `x-url`, and a path locale turns
    * the response into a rewrite to the path without it. */
  function Localized(req: Request): (r: Response)
    ensures r.Next? || r.Rewrite?
    ensures r.Rewrite? <==> PathLocale(SupportedLanguages, req.pathname).Some?
    ensures "x-locale" in r.requestHeaders && r.requestHeaders["x-locale"] in SupportedLanguages
    ensures "x-url" in r.requestHeaders && r.requestHeaders["x-url"] == req.url
    ensures forall name :: name in req.headers && name != "x-locale" && name != "x-url" ==>
      name in r.requestHeaders && r.requestHeaders[name] == req.headers[name]
    ensures r.requestHeaders.Keys == req.headers.Keys + {"x-locale", "x-url"}
  {
    var path := PathLocale(SupportedLanguages, req.pathname);
    var locale := if path.Some? then path.value else FallbackLocale(req.queryLang, Header(req.headers, "accept-language"));
    assert path.Some? ==> path.value in SupportedLanguages by {
      PathLocaleOrder(req.pathname);
    }
    var headers := req.headers["x-locale" := locale]["x-url" := req.url];
    if path.Some? then Rewrite(StripLocale(req.pathname, path.value), headers) else Next(headers)
  }

  /** A path under a locale prefix is served by the path without it. */
  lemma UnderLocale(lang: string, rest: string)
    requires StartsWith(rest, "/")
    ensures MatchesLocale("/" + lang + rest, lang)
    ensures StripLocale("/" + lang + rest, lang) == rest
  {
    var p := "/" + lang + rest;
    assert p[..|"/" + lang + "/"|] == "/" + lang + "/";
    StripLocaleRest(p, lang);
  }

  /** `/ja/expressions/x` is served by `/expressions/x` in Japanese, whatever
    * the query or the browser asks for. */
  lemma JapanesePath(req: Request)
    requires req.pathname == "/ja" + "/expressions/x"
    ensures Localized(req) == Rewrite("/expressions/x", req.headers["x-locale" := "ja"]["x-url" := req.url])
  {
    JapanesePathLocale(req.pathname);
  }

  lemma JapanesePathLocale(p: string)
    requires p == "/ja" + "/expressions/x"
    ensures PathLocale(SupportedLanguages, p) == Some("ja")
    ensures StripLocale(p, "ja") == "/expressions/x"
  {
    PathLocaleOrder(p);
    UnderLocale("ja", "/expressions/x");
    assert !MatchesLocale(p, "ko") by {
      assert p[1] != ("/ko/")[1];
    }
  }

  // ------------------------------------------------------------------ state

  class ProxyState {
    /** `authStore`: the sign-in request times per client address. */
    var authStore: Store
    var lastAuthCleanup: int

    /** The module's state when it is loaded at time `now`. */
    constructor(now: int)
      ensures authStore == map[] && lastAuthCleanup == now
    {
      authStore := map[];
      lastAuthCleanup := now;
    }

    /** `cleanupAuthStoreIfNeeded`: nothing within five minutes of the last
      * clean-up; otherwise records `now`, drops the addresses without a
      * request in the last minute and prunes the others. */
    method CleanupAuthStoreIfNeeded(now: int)
      modifies this
      ensures authStore == AuthCleaned(old(authStore), old(lastAuthCleanup), now)
      ensures lastAuthCleanup == if now - old(lastAuthCleanup) < AuthCleanupIntervalMs then old(lastAuthCleanup) else now
    {
      if now - lastAuthCleanup < AuthCleanupIntervalMs {
        return;
      }
      lastAuthCleanup := now;
      var cutoff := now - AuthWindowMs;
      ghost var store0 := authStore;
      var pending := authStore.Keys;
      while pending != {}
        invariant pending <= store0.Keys
        invariant lastAuthCleanup == now
        invariant forall key :: key in authStore <==>
          key in store0 && (key in pending || RateLimiter.InWindow(store0[key], cutoff) != [])
        invariant forall key :: key in authStore ==>
          authStore[key] == if key in pending then store0[key] else RateLimiter.InWindow(store0[key], cutoff)
        decreases |pending|
      {
        var key :| key in pending;
        var valid := RateLimiter.InWindow(authStore[key], cutoff);
        if |valid| == 0 {
          authStore := authStore - {key};
        } else {
          authStore := authStore[key := valid];
        }
        pending := pending - {key};
      }
      assert authStore.Keys == RateLimiter.Cleaned(store0, cutoff).Keys;
    }

    /** `isAuthRateLimited(ip)`: after the clean-up, limited iff the address
      * has 20 requests in the last minute.  Either way its pruned requests
      * are stored, with `now` added only when it was not limited. */
    method IsAuthRateLimited(ip: string, now: int) returns (limited: bool)
      modifies this
      ensures var cleaned := AuthCleaned(old(authStore), old(lastAuthCleanup), now);
        (limited <==> |RecentAuth(cleaned, ip, now)| >= AuthRateLimit)
        && authStore == AfterAuthCheck(cleaned, ip, now)
      ensures lastAuthCleanup == if now - old(lastAuthCleanup) < AuthCleanupIntervalMs then old(lastAuthCleanup) else now
    {
      CleanupAuthStoreIfNeeded(now);
      var windowStart := now - AuthWindowMs;
      var timestamps := RateLimiter.Stored(authStore, ip);
      var valid := RateLimiter.InWindow(timestamps, windowStart);
      if |valid| >= AuthRateLimit {
        authStore := authStore[ip := valid];
        return true;
      }
      authStore := authStore[ip := valid + [now]];
      return false;
    }

    /** `proxy(request)`. */
    method Proxy(req: Request, env: Env, atob: string -> Option<string>, now: int) returns (resp: Response)
      modifies this
      ensures StartsWith(req.pathname, AuthPrefix) ==>
        var cleaned := AuthCleaned(old(authStore), old(lastAuthCleanup), now);
        var ip := ClientIp(req.headers);
        authStore == AfterAuthCheck(cleaned, ip, now)
        && resp == if |RecentAuth(cleaned, ip, now)| >= AuthRateLimit then TooManyRequests else PassThrough
      ensures !StartsWith(req.pathname, AuthPrefix) ==>
        authStore == old(authStore) && lastAuthCleanup == old(lastAuthCleanup)
      ensures (!StartsWith(req.pathname, AuthPrefix) && StartsWith(req.pathname, StudioPrefix)
        && StudioAuth(Header(req.headers, "authorization"), env, atob).Rejected?) ==>
        resp == Unauthorized(StudioAuth(Header(req.headers, "authorization"), env, atob).message)
      ensures (!StartsWith(req.pathname, AuthPrefix)
        && (!StartsWith(req.pathname, StudioPrefix) || StudioAuth(Header(req.headers, "authorization"), env, atob).Authorized?)) ==>
        resp == Localized(req)
    {
      if StartsWith(req.pathname, AuthPrefix) {
        var ip := ClientIp(req.headers);
        var limited := IsAuthRateLimited(ip, now);
        if limited {
          return TooManyRequests;
        }
        return PassThrough;
      }
      if StartsWith(req.pathname, StudioPrefix) {
        var outcome := StudioAuth(Header(req.headers, "authorization"), env, atob);
        if outcome.Rejected? {
          return Unauthorized(outcome.message);
        }
      }
      var isPathLocale, detectedLocale, newPathname := DetectPathLocale(req.pathname);
      if !isPathLocale {
        detectedLocale := FallbackLocale(req.queryLang, Header(req.headers, "accept-language"));
      }
      var requestHeaders := req.headers["x-locale" := detectedLocale]["x-url" := req.url];
      if isPathLocale {
        return Rewrite(newPathname, requestHeaders);
      }
      return Next(requestHeaders);
    }
  }
}
