/**
 The cookie conversion of src/utils/simple.js (`toPuppeteerCookies`): a cookie as the
 Cookie-Editor extension exports it becomes the record the browser accepts. JSON
 fields that may be missing are `Option`s; `None` is `undefined`. The host name of
 the base URL (`new URL(baseUrl).hostname`) is a parameter. The older conversion in
 `loadCookies` (src/providers/sms24.js) is modelled alongside and related to it.
 */
module Cookies {
  import opened Optional

  /** An exported cookie: `{name, value, domain, path, expirationDate, secure, httpOnly, sameSite}`. */
  datatype Exported = Exported(
    name: Option<string>,
    value: Option<string>,
    domain: Option<string>,
    path: Option<string>,
    expirationDate: Option<real>,
    secure: Option<bool>,
    httpOnly: Option<bool>,
    sameSite: Option<string>)

  /** The cookie handed to the browser; `expires` and `sameSite` are absent when `None`. */
  datatype BrowserCookie = BrowserCookie(
    name: Option<string>,
    value: Option<string>,
    domain: string,
    path: string,
    httpOnly: bool,
    secure: bool,
    expires: Option<int>,
    sameSite: Option<string>,
    url: string)

  /** The base URL used when the caller gives none, and its host name. */
  const DefaultBaseUrl := "https://sms24.me"
  const DefaultHost := "sms24.me"

  /** Truthiness of the JSON values involved: a non-empty string, `true`, a non-zero number. */
  predicate TruthyString(s: Option<string>) {
    s.Some? && s.value != []
  }

  predicate TruthyBool(b: Option<bool>) {
    b.Some? && b.value
  }

  predicate TruthyNumber(x: Option<real>) {
    x.Some? && x.value != 0.0
  }

  /** `s || fallback` on an optional string. */
  function OrElse(s: Option<string>, fallback: string): (r: string)
    ensures TruthyString(s) ==> r == s.value
    ensures !TruthyString(s) ==> r == fallback
  {
    if TruthyString(s) then s.value else fallback
  }

  /** `Math.floor`, for a truthy expiration date only. */
  function FloorOf(x: Option<real>): (r: Option<int>)
    ensures r.Some? <==> TruthyNumber(x)
    ensures r.Some? ==> r.value as real <= x.value < r.value as real + 1.0
  {
    if TruthyNumber(x) then Some(x.value.Floor) else None
  }

  /**
   One cookie of `toPuppeteerCookies(json, baseUrl)`, with `host` the host name of
   `baseUrl`: name and value copied, a falsy domain replaced by the host and a
   falsy path by "/", the two flags forced to booleans, `expires` only for a truthy
   expiration date (floored), `sameSite` only when truthy, and `url` the base URL.
   */
  function ToBrowserCookie(c: Exported, baseUrl: string, host: string): (r: BrowserCookie)
    ensures r.name == c.name && r.value == c.value
    ensures r.domain == (if TruthyString(c.domain) then c.domain.value else host)
    ensures r.path == (if TruthyString(c.path) then c.path.value else "/")
    ensures r.path != []
    ensures r.httpOnly == TruthyBool(c.httpOnly) && r.secure == TruthyBool(c.secure)
    ensures r.expires.Some? <==> TruthyNumber(c.expirationDate)
    ensures r.expires.Some? ==> r.expires.value as real <= c.expirationDate.value < r.expires.value as real + 1.0
    ensures r.sameSite.Some? <==> TruthyString(c.sameSite)
    ensures r.sameSite.Some? ==> r.sameSite == c.sameSite
    ensures r.url == baseUrl
  {
    BrowserCookie(
      c.name, c.value,
      OrElse(c.domain, host), OrElse(c.path, "/"),
      TruthyBool(c.httpOnly), TruthyBool(c.secure),
      FloorOf(c.expirationDate),
      if TruthyString(c.sameSite) then c.sameSite else None,
      baseUrl)
  }

  /** `json.map(...)`: one browser cookie per exported cookie, in the same order. */
  function ToPuppeteerCookies(json: seq<Exported>, baseUrl: string, host: string): (r: seq<BrowserCookie>)
    ensures |r| == |json|
    ensures forall k :: 0 <= k < |r| ==> r[k].name == json[k].name && r[k].value == json[k].value && r[k].url == baseUrl
    ensures forall k :: 0 <= k < |r| ==> r[k] == ToBrowserCookie(json[k], baseUrl, host)
  {
    seq(|json|, k requires 0 <= k < |json| => ToBrowserCookie(json[k], baseUrl, host))
  }

  /** The conversion works cookie by cookie: converting two exports is converting each. */
  lemma ConversionSplits(a: seq<Exported>, b: seq<Exported>, baseUrl: string, host: string)
    ensures ToPuppeteerCookies(a + b, baseUrl, host) == ToPuppeteerCookies(a, baseUrl, host) + ToPuppeteerCookies(b, baseUrl, host)
  {
    var l, r := ToPuppeteerCookies(a + b, baseUrl, host), ToPuppeteerCookies(a, baseUrl, host) + ToPuppeteerCookies(b, baseUrl, host);
    assert forall k :: 0 <= k < |l| ==> l[k] == r[k];
  }

  /** Flooring an integral expiration date changes nothing. */
  lemma WholeExpiryKept(n: int)
    requires n != 0
    ensures FloorOf(Some(n as real)) == Some(n)
  {
  }

  /**
   The mapping in `loadCookies`: the same as above except that the domain falls back
   to "sms24.me", the URL is always "https://sms24.me" and `sameSite` is never copied.
   */
  function LoadedCookie(c: Exported): (r: BrowserCookie)
    ensures r.sameSite.None? && r.url == DefaultBaseUrl
    ensures r.domain == (if TruthyString(c.domain) then c.domain.value else DefaultHost)
    ensures r.expires.Some? <==> TruthyNumber(c.expirationDate)
  {
    BrowserCookie(
      c.name, c.value,
      OrElse(c.domain, DefaultHost), OrElse(c.path, "/"),
      TruthyBool(c.httpOnly), TruthyBool(c.secure),
      FloorOf(c.expirationDate),
      None,
      DefaultBaseUrl)
  }

  /** With the default base URL the two conversions differ in `sameSite` alone. */
  lemma LoadedDiffersOnlyInSameSite(c: Exported)
    ensures LoadedCookie(c) == ToBrowserCookie(c, DefaultBaseUrl, DefaultHost).(sameSite := None)
    ensures !TruthyString(c.sameSite) ==> LoadedCookie(c) == ToBrowserCookie(c, DefaultBaseUrl, DefaultHost)
  {
  }
}
