/**
 * `Request`: the configurable request that drives its own cURL handle. It
 * keeps the method, URL, headers, cookie jar, post fields, JSON and URL
 * parameters; `send` hands them to the handle, performs the exchange, builds
 * the `Response` and, when asked to, follows redirects by sending again.
 */
module Requests {
  import opened Wrappers
  import opened Strings
  import opened Dicts
  import opened HttpTypes
  import opened Transport
  import opened Cookies
  import opened Responses
  import opened ResponseParsing
  import opened Lifecycle

  /** A value of the array given to `addCookies`: a `Cookie` object, or a plain value. */
  datatype CookieValue = Obj(cookie: Cookie) | Val(text: string)

  /** The argument of `addCookies`/`setCookies`: one cookie, an array, or anything else (only its type name is used). */
  datatype CookieArg = OneCookie(cookie: Cookie) | Entries(entries: seq<(string, CookieValue)>) | NotArray(typeName: string)

  /** A single cookie is wrapped into an array first (its key is never used). */
  function ArgEntries(arg: CookieArg): seq<(string, CookieValue)>
    requires !arg.NotArray?
  {
    match arg
    case OneCookie(c) => [("0", Obj(c))]
    case Entries(es) => es
  }

  /** The cookie objects of a list, as array entries. */
  function AsEntries(cs: seq<Cookie>): (es: seq<(string, CookieValue)>)
    ensures |es| == |cs|
    ensures forall i :: 0 <= i < |cs| ==> es[i] == ("", Obj(cs[i]))
  {
    seq(|cs|, i requires 0 <= i < |cs| => ("", Obj(cs[i])))
  }

  /** The cookie objects an entry list refers to. */
  ghost function EntryObjects(es: seq<(string, CookieValue)>): set<Cookie> {
    set e | e in es && e.1.Obj? :: e.1.cookie
  }

  /**
   * Where an entry lands in the jar and what it holds: a cookie object under
   * its own `name` (null, the key `""`, when it has none), a plain value as a
   * new cookie under the entry's key.
   */
  ghost function EntryBag(e: (string, CookieValue)): (string, Bag)
    reads if e.1.Obj? then {e.1.cookie} else {}
  {
    match e.1
    case Obj(c) => (Lookup(c.data, "name").GetOr(""), c.data)
    case Val(v) => (e.0, Fresh(e.0, v))
  }

  ghost function EntryBags(es: seq<(string, CookieValue)>): (d: Dict<Bag>)
    reads EntryObjects(es)
    ensures |d| == |es|
    ensures forall i :: 0 <= i < |es| ==> d[i] == EntryBag(es[i])
  {
    if es == [] then []
    else
      assert EntryObjects(es[..|es| - 1]) <= EntryObjects(es);
      EntryBags(es[..|es| - 1]) + [EntryBag(es[|es| - 1])]
  }

  /** The attribute bags of a cookie jar, under the same keys. */
  ghost function BagsIn(jar: Dict<Cookie>): (d: Dict<Bag>)
    reads set e | e in jar :: e.1
    ensures |d| == |jar|
    ensures forall i :: 0 <= i < |jar| ==> d[i] == (jar[i].0, jar[i].1.data)
  {
    if jar == [] then []
    else
      assert forall e :: e in jar[1..] ==> e in jar;
      [(jar[0].0, jar[0].1.data)] + BagsIn(jar[1..])
  }

  /** Storing a cookie in the jar stores its bag in the jar's view. */
  lemma {:induction false} BagsPut(jar: Dict<Cookie>, k: string, c: Cookie)
    ensures BagsIn(Put(jar, k, c)) == Put(BagsIn(jar), k, c.data)
  {
    if jar != [] {
      var b := BagsIn(jar);
      assert b == [(jar[0].0, jar[0].1.data)] + BagsIn(jar[1..]);
      assert b[1..] == BagsIn(jar[1..]);
      if jar[0].0 == k {
        var p := [(k, c)] + jar[1..];
        assert p[1..] == jar[1..];
        assert BagsIn(p) == [(k, c.data)] + BagsIn(jar[1..]);
      } else {
        BagsPut(jar[1..], k, c);
        var p := [jar[0]] + Put(jar[1..], k, c);
        assert p[1..] == Put(jar[1..], k, c);
        assert BagsIn(p) == [(jar[0].0, jar[0].1.data)] + BagsIn(Put(jar[1..], k, c));
      }
    }
  }

  // ---------------------------------------------------------------- cookies sent

  /**
   * `preg_match('/' . preg_quote($domain) . '/', $host)`: without a delimiter
   * argument `preg_quote` leaves `/` alone, so a domain holding one ends the
   * pattern early and the match fails; any other domain matches as a plain
   * substring of the host, letter case included.
   */
  predicate DomainMatches(domain: string, host: string) {
    '/' !in domain && Contains(host, domain)
  }

  /** `preg_match('/^https$/', $scheme)`: `$` also matches in front of a final newline. */
  predicate SecureScheme(scheme: string) {
    scheme == "https" || scheme == "https\n"
  }

  /**
   * The filter of `setUpCookies`: a cookie is dropped when it has a `domain`
   * the URL's host does not match, a `path` that does not occur in the URL's
   * path, or a `Secure` attribute while the URL's scheme is not https. Each
   * check applies only when the attribute (spelt exactly so) and the URL
   * component are both set.
   */
  predicate Allowed(bag: Bag, url: Option<UrlParts>) {
    ("domain" in bag && url.Some? && url.value.host.Some? ==> DomainMatches(bag["domain"], url.value.host.value))
    && ("path" in bag && url.Some? && url.value.path.Some? ==> Contains(url.value.path.value, bag["path"]))
    && ("Secure" in bag && url.Some? && url.value.scheme.Some? ==> SecureScheme(url.value.scheme.value))
  }

  /** The cookies of the jar `setUpCookies` keeps, in jar order. */
  function Survivors(jar: Dict<Bag>, url: Option<UrlParts>): seq<Bag>
    decreases |jar|
  {
    if jar == [] then []
    else Survivors(jar[..|jar| - 1], url) + if Allowed(jar[|jar| - 1].1, url) then [jar[|jar| - 1].1] else []
  }

  /** The cookies kept are exactly those of the jar the filter allows. */
  lemma {:induction false} SurvivorsMeaning(jar: Dict<Bag>, url: Option<UrlParts>)
    ensures |Survivors(jar, url)| <= |jar|
    ensures forall b :: b in Survivors(jar, url) ==> Allowed(b, url) && b in Values(jar)
    ensures forall i :: 0 <= i < |jar| && Allowed(jar[i].1, url) ==> jar[i].1 in Survivors(jar, url)
    decreases |jar|
  {
    if jar != [] {
      var init := jar[..|jar| - 1];
      SurvivorsMeaning(init, url);
      ValuesInit(jar);
    }
  }

  lemma SurvivorsStep(jar: Dict<Bag>, i: nat, url: Option<UrlParts>)
    requires i < |jar|
    ensures Survivors(jar[..i + 1], url) == Survivors(jar[..i], url) + if Allowed(jar[i].1, url) then [jar[i].1] else []
  {
    assert jar[..i + 1][..i] == jar[..i];
  }

  /** `implode('; ', $tmp)` over the kept cookies, each written by `__toString`. */
  function CookieLine(bags: seq<Bag>): string {
    Join(seq(|bags|, i requires 0 <= i < |bags| => Render(bags[i])), "; ")
  }

  /**
   * The options after `setUpCookies`: `CURLOPT_COOKIE` is set only when some
   * cookie is kept; otherwise whatever an earlier exchange set there stays.
   */
  function WithCookies(opts: map<CurlOpt, OptValue>, jar: Dict<Bag>, url: Option<UrlParts>): map<CurlOpt, OptValue> {
    var kept := Survivors(jar, url);
    if kept != [] then opts[Cookie := Text(CookieLine(kept))] else opts
  }

  /** A domain holding `/` keeps its cookie from every URL that has a host. */
  lemma SlashDomainNeverSent(jar: Dict<Bag>, i: nat, url: Option<UrlParts>)
    requires i < |jar| && "domain" in jar[i].1 && '/' in jar[i].1["domain"]
    requires url.Some? && url.value.host.Some?
    ensures jar[i].1 !in Survivors(jar, url)
  {
    SurvivorsMeaning(jar, url);
  }

  /**
   * Attribute names keep the letter case the server wrote, and only a
   * lower-case `domain` is checked: a cookie received as `name=value;
   * Domain=…` goes out to every URL, whatever its host.
   */
  lemma CapitalDomainIgnored(name: string, value: string, domain: string, url: Option<UrlParts>)
    requires WellFormedPair((name, value)) && ';' !in domain && name != "Domain"
    ensures ParseSetCookie(name + "=" + value + "; Domain=" + domain) == Some(Fresh(name, value)["Domain" := domain])
    ensures Allowed(Fresh(name, value)["Domain" := domain], url)
  {
    CapitalDomainParsed(name, value, "Domain", domain);
    OtherKeysIgnored(Fresh(name, value), "Domain", domain, url);
  }

  lemma CapitalDomainParsed(name: string, value: string, d: string, domain: string)
    requires d == "Domain" && WellFormedPair((name, value)) && ';' !in domain && name != d
    ensures ParseSetCookie(name + "=" + value + "; Domain=" + domain) == Some(Fresh(name, value)[d := domain])
  {
    assert WellFormedPair((d, domain));
    assert forall j :: 0 <= j < |d| ==> !IsDigit(d[j]);
    LooseEqualsPlain(d, name);
    DomainLine(name + "=" + value, domain);
    ParseTwoPairs(name, value, d, domain);
  }

  /** A `Set-Cookie` line ending in a `Domain` attribute is its first pair followed by `; Domain=…`. */
  lemma DomainLine(pair: string, domain: string)
    ensures pair + "; Domain=" + domain == pair + ("; " + ("Domain" + "=" + domain))
  {
    assert "; Domain=" + domain == "; " + ("Domain" + "=" + domain);
  }

  /** Only the keys `domain`, `path` and `Secure` take part in the filter. */
  lemma OtherKeysIgnored(bag: Bag, key: string, v: string, url: Option<UrlParts>)
    requires key != "domain" && key != "path" && key != "Secure"
    ensures Allowed(bag[key := v], url) == Allowed(bag, url)
  {
  }

  /** A cookie marked `Secure` goes out over https only, when the URL names a scheme. */
  lemma SecureOverHttpsOnly(jar: Dict<Bag>, i: nat, url: Option<UrlParts>)
    requires i < |jar| && "Secure" in jar[i].1
    requires url.Some? && url.value.scheme == Some("http")
    ensures jar[i].1 !in Survivors(jar, url)
  {
    SurvivorsMeaning(jar, url);
  }

  /** A jar of plain cookies, with no `domain`, `path` or `Secure`, goes out whole and in order. */
  lemma PlainCookiesAllSent(jar: Dict<Bag>, url: Option<UrlParts>)
    requires forall i :: 0 <= i < |jar| ==> jar[i].1.Keys == {"name", "value"}
    ensures Survivors(jar, url) == Values(jar)
  {
    forall i | 0 <= i < |jar|
      ensures Allowed(jar[i].1, url)
    {
      assert "domain" !in jar[i].1 && "path" !in jar[i].1 && "Secure" !in jar[i].1;
    }
    AllKept(jar, url);
  }

  /** A jar whose every cookie passes the filter goes out whole and in order. */
  lemma {:induction false} AllKept(jar: Dict<Bag>, url: Option<UrlParts>)
    requires forall i :: 0 <= i < |jar| ==> Allowed(jar[i].1, url)
    ensures Survivors(jar, url) == Values(jar)
    decreases |jar|
  {
    if jar != [] {
      AllKept(jar[..|jar| - 1], url);
      ValuesInit(jar);
    }
  }

  /**
   * When no cookie is kept the cookie option is left as it was, so the
   * cookies of an earlier exchange go out again.
   */
  lemma StaleCookieKept(opts: map<CurlOpt, OptValue>, jar: Dict<Bag>, url: Option<UrlParts>)
    requires Cookie in opts
    requires forall i :: 0 <= i < |jar| ==> !Allowed(jar[i].1, url)
    ensures Cookie in WithCookies(opts, jar, url) && WithCookies(opts, jar, url)[Cookie] == opts[Cookie]
  {
    NoneKept(jar, url);
  }

  lemma {:induction false} NoneKept(jar: Dict<Bag>, url: Option<UrlParts>)
    requires forall i :: 0 <= i < |jar| ==> !Allowed(jar[i].1, url)
    ensures Survivors(jar, url) == []
    decreases |jar|
  {
    if jar != [] {
      NoneKept(jar[..|jar| - 1], url);
    }
  }

  // ---------------------------------------------------------------- one exchange

  /**
   * The options the handle holds when `send` executes: the target URL, the
   * cookie line, the header lines (with the JSON Content-Type merged in), and
   * the body, each set only when `send` sets it.
   */
  function Prepared(opts: map<CurlOpt, OptValue>, st: RequestState, jar: Dict<Bag>, lib: Library): map<CurlOpt, OptValue> {
    var withUrl := opts[Url := Text(Target(st.rawUrl, st.params, lib))];
    var withHeaders := WithHeaderLines(WithCookies(withUrl, jar, st.url), SentHeaders(st.headers, st.json));
    WithBody(withHeaders, st.httpMethod, st.headers, st.post, st.json, lib)
  }

  /** The options after `setUpHeaders`: the header lines when there is a header; otherwise whatever was set before stays. */
  function WithHeaderLines(opts: map<CurlOpt, OptValue>, sent: Dict<string>): map<CurlOpt, OptValue> {
    if sent != [] then opts[HttpHeader := Lines(HeaderLines(sent))] else opts
  }

  /**
   * A request with JSON goes out with the line `Content-Type: application/json`
   * among its header lines, whatever Content-Type was set before.
   */
  lemma JsonTypeSent(opts: map<CurlOpt, OptValue>, st: RequestState, jar: Dict<Bag>, lib: Library)
    requires st.json.Some?
    ensures HttpHeader in Prepared(opts, st, jar, lib)
    ensures Prepared(opts, st, jar, lib)[HttpHeader].Lines?
    ensures "Content-Type: " + JsonType in Prepared(opts, st, jar, lib)[HttpHeader].lines
  {
    var sent := SentHeaders(st.headers, st.json);
    GetFound(sent, "Content-Type");
    var i :| 0 <= i < |sent| && sent[i] == ("Content-Type", JsonType);
    assert HeaderLines(sent)[i] == "Content-Type: " + JsonType;
    var withUrl := opts[Url := Text(Target(st.rawUrl, st.params, lib))];
    var withHeaders := WithHeaderLines(WithCookies(withUrl, jar, st.url), sent);
    assert withHeaders[HttpHeader] == Lines(HeaderLines(sent));
    BodyKeeps(withHeaders, st.httpMethod, st.headers, st.post, st.json, lib, HttpHeader);
    assert Prepared(opts, st, jar, lib) == WithBody(withHeaders, st.httpMethod, st.headers, st.post, st.json, lib);
  }

  /** The URL of every exchange is the current URL text, with the encoded parameters behind `?` when there are any. */
  lemma TargetSent(opts: map<CurlOpt, OptValue>, st: RequestState, jar: Dict<Bag>, lib: Library)
    ensures Url in Prepared(opts, st, jar, lib)
    ensures Prepared(opts, st, jar, lib)[Url] == Text(Target(st.rawUrl, st.params, lib))
  {
    var withUrl := opts[Url := Text(Target(st.rawUrl, st.params, lib))];
    var withCookies := WithCookies(withUrl, jar, st.url);
    assert Url in withCookies && withCookies[Url] == withUrl[Url];
    var withHeaders := WithHeaderLines(withCookies, SentHeaders(st.headers, st.json));
    BodyKeeps(withHeaders, st.httpMethod, st.headers, st.post, st.json, lib, Url);
  }

  /** The cookies of a response as `addCookies` files them: each under its own `name`. */
  function Named(bags: seq<Bag>): (d: Dict<Bag>)
    ensures |d| == |bags|
    ensures forall i :: 0 <= i < |bags| ==> d[i] == (Lookup(bags[i], "name").GetOr(""), bags[i])
  {
    seq(|bags|, i requires 0 <= i < |bags| => (Lookup(bags[i], "name").GetOr(""), bags[i]))
  }

  /** Handing a response's cookie list to `addCookies` files their bags under their names. */
  lemma NamedEntries(cs: seq<Cookie>)
    ensures EntryBags(AsEntries(cs)) == Named(BagsOf(cs))
  {
  }

  /**
   * A response built from a delivered exchange: its code, the header array
   * and cookies of the last header block in the text, its body, and nothing
   * decoded yet.
   */
  ghost predicate BuiltFrom(r: Response, x: Exchange)
    reads r, set c | c in r.cookies
  {
    x.Delivered? && r.code == x.code && r.body == SplitRaw(x.raw).1 && r.decodedBody == ""
    && r.headers == HeaderDict(HeaderFields(SplitRaw(x.raw).0))
    && r.Jar() == ReplyBags(x)
  }

  /** The attribute bags of the cookies a reply's last header block sets, in order. */
  function ReplyBags(x: Exchange): seq<Bag>
    requires x.Delivered?
  {
    CookieBags(HeaderFields(SplitRaw(x.raw).0))
  }

  /** The jar after reply `x`: a delivered reply's cookies are filed under their names when cookies are on. */
  function AfterReply(jar: Dict<Bag>, x: Exchange, cookiesEnabled: bool): Dict<Bag> {
    if Delivers(x) && cookiesEnabled then PutAll(jar, Named(ReplyBags(x))) else jar
  }

  /** `new Response($code, $headers, $body)` on a delivered reply split at its header/body boundary. */
  method Build(x: Exchange) returns (r: Response)
    requires x.Delivered?
    ensures fresh(r) && BuiltFrom(r, x)
  {
    var (head, body) := SplitRaw(x.raw);
    r := new Response(x.code, head, body);
  }

  /** How a `send` ended, read off its result. */
  function VerdictOf(out: Result<Response>): Verdict
    reads if out.Ok? then {out.value} else {}
  {
    match out
    case Ok(r) => Answered(r.code)
    case Err(e) => Threw(e)
  }

  /** Everything `Request` keeps, as one value. */
  datatype RequestState = RequestState(
    httpMethod: Method,
    hasUrl: bool,
    url: Option<UrlParts>,
    rawUrl: string,
    headers: Dict<string>,
    cookies: Dict<Cookie>,
    post: Dict<string>,
    json: Option<Dict<string>>,
    params: Dict<string>,
    cookiesEnabled: bool,
    autoFollow: bool,
    maxRedirects: int,
    redirectCount: int,
    response: Response,
    connectionTimeout: int)

  /**
   * Where `setUrl` with a redirect target, followed on success by
   * `addHeaders` with the new URL text as `Referer`, leaves the request, and
   * how the call ends.
   */
  function Retargeting(before: RequestState, target: Option<string>, lib: Library): (Outcome, RequestState) {
    if target.None? then
      (Thrown(InvalidArgument("String required, got: NULL")), before)
    else if !UrlTruthy(lib.parseUrl(target.value)) then
      (Thrown(InvalidArgument("Invalid URL, got: " + target.value)), before.(url := lib.parseUrl(target.value)))
    else
      (Done, before.(url := lib.parseUrl(target.value), rawUrl := target.value, hasUrl := true,
                     headers := PutAll(before.headers, [("Referer", target.value)])))
  }

  /** Whether `send`, in request state `st`, follows reply `x` with `doFollow`. */
  predicate FollowsUp(x: Exchange, st: RequestState) {
    Delivers(x) && st.autoFollow && IsRedirect(x.code) && st.redirectCount < st.maxRedirects
  }

  /** The header array a `send` leaves behind: the one it sent, without its Content-Type. */
  function AfterSend(st: RequestState): Dict<string> {
    Remove(SentHeaders(st.headers, st.json), "Content-Type")
  }

  /** The redirect chain that a `send` from request state `st` runs over the script `replies`. */
  function ChainFrom(replies: seq<Exchange>, st: RequestState): (Verdict, int, nat) {
    Chain(replies, st.redirectCount, st.maxRedirects, st.autoFollow)
  }

  /**
   * A `send` with a URL that makes exactly one exchange, from state `before`
   * and jar `jar` with script `replies`, to state `after` and jar `jarAfter`
   * with script `left`: the Content-Type header is gone, a failure throws its
   * error number and keeps the response and the counter, and a delivered
   * reply's cookies join the jar and the call then settles.
   */
  predicate SentOnce(replies: seq<Exchange>, before: RequestState, jar: Dict<Bag>, out: Result<Response>,
                     left: seq<Exchange>, sends: int, after: RequestState, jarAfter: Dict<Bag>)
  {
    sends == 1 && left == Rest(replies)
    && after == before.(headers := AfterSend(before), response := after.response, cookies := after.cookies, redirectCount := after.redirectCount)
    && jarAfter == AfterReply(jar, Next(replies), before.cookiesEnabled)
    && (!Delivers(Next(replies)) ==>
          out == Err(TransportError(ErrNo(Next(replies)))) && after.response == before.response
          && after.redirectCount == before.redirectCount)
    && (Delivers(Next(replies)) && before.redirectCount == before.maxRedirects ==>
          out == Err(TooManyRedirects(before.maxRedirects)) && after.redirectCount == before.redirectCount)
    && (Delivers(Next(replies)) && before.redirectCount != before.maxRedirects ==>
          out == Ok(after.response) && after.redirectCount == 0)
  }

  /**
   * The request a successful `doFollow` sends: method GET, the resolved
   * location as URL text, parsed URL and `Referer`, and one more redirect
   * counted.
   */
  function FollowUp(st: RequestState, target: string, lib: Library): RequestState {
    st.(httpMethod := GET, url := lib.parseUrl(target), rawUrl := target, hasUrl := true,
        headers := PutAll(st.headers, [("Referer", target)]), redirectCount := st.redirectCount + 1)
  }

  /**
   * `doFollow` up to its `send`, from request state `st` whose last response
   * carries the `Location` header `location`: the method becomes GET, the
   * location resolved against the current URL is the retarget, and only a
   * retarget that succeeds counts one more redirect.
   */
  function Followed(st: RequestState, location: Option<string>, lib: Library): (r: (Outcome, RequestState))
    ensures r.1.(httpMethod := st.httpMethod, url := st.url, rawUrl := st.rawUrl, hasUrl := st.hasUrl,
                 headers := st.headers, redirectCount := st.redirectCount) == st
    ensures r.0.Thrown? ==> r.1.headers == st.headers && r.1.redirectCount == st.redirectCount
    ensures r.0.Done? ==> r.1.redirectCount == st.redirectCount + 1 && r.1.hasUrl
  {
    var (o, after) := Retargeting(st.(httpMethod := GET), Resolve(location, st.url), lib);
    (o, if o.Done? then after.(redirectCount := st.redirectCount + 1) else after)
  }

  /** From a truthy URL every location resolves to a URL text, and a `parse_url` that parses everything accepts it. */
  lemma FollowTargetParses(location: Option<string>, url: Option<UrlParts>, parse: string -> Option<UrlParts>)
    requires UrlTruthy(url) && ParsesEverything(parse)
    ensures Resolve(location, url).Some? && UrlTruthy(parse(Resolve(location, url).value))
  {
    var t := Resolve(location, url);
    assert parse(t.value).Some? && parse(t.value).value.scheme.Some?;
  }

  /** `Followed` begins with `setMethod('GET')`, so the method before it does not matter. */
  lemma FollowedIgnoresMethod(st: RequestState, location: Option<string>, lib: Library)
    ensures Followed(st.(httpMethod := GET), location, lib) == Followed(st, location, lib)
  {
  }

  /** Once the method is GET, `Followed` is the retarget, with the redirect counted when it succeeds. */
  lemma FollowedCounts(st: RequestState, location: Option<string>, lib: Library, out: Outcome, after: RequestState)
    requires st.httpMethod == GET && Retargeting(st, Resolve(location, st.url), lib) == (out, after)
    ensures Followed(st, location, lib) == (out, if out.Done? then after.(redirectCount := st.redirectCount + 1) else after)
  {
  }

  /**
   * When the chain can be predicted, the preparation of a follow-up always
   * succeeds, and it lands in the follow-up state, whose URL is truthy.
   */
  lemma FollowedUp(st: RequestState, location: Option<string>, lib: Library)
    requires ParsesEverything(lib.parseUrl) && UrlTruthy(st.url)
    ensures Resolve(location, st.url).Some? && UrlTruthy(lib.parseUrl(Resolve(location, st.url).value))
    ensures Followed(st, location, lib) == (Done, FollowUp(st, Resolve(location, st.url).value, lib))
  {
    FollowTargetParses(location, st.url, lib.parseUrl);
  }

  class Request {
    /** The library functions used; fixed for the life of the request. */
    const lib: Library
    /** The cURL handle made by the constructor. */
    const handle: Handle

    var response: Response
    var cookies: Dict<Cookie>
    var headers: Dict<string>
    var httpMethod: Method
    /** Set by the first successful `setUrl` and never cleared. */
    var hasUrl: bool
    /** The last `parse_url` result, absent for `false` and before any `setUrl`. */
    var url: Option<UrlParts>
    var rawUrl: string
    var post: Dict<string>
    var json: Option<Dict<string>>
    var params: Dict<string>
    var cookiesEnabled: bool
    var autoFollow: bool
    var maxRedirects: int
    var redirectCount: int
    var connectionTimeout: int

    function State(): RequestState
      reads this
    {
      RequestState(httpMethod, hasUrl, url, rawUrl, headers, cookies, post, json, params,
                    cookiesEnabled, autoFollow, maxRedirects, redirectCount, response, connectionTimeout)
    }

    /** What the request holds that sending never changes. */
    function Config(): (Dict<string>, Option<Dict<string>>, Dict<string>, bool, bool, int, int)
      reads this
    {
      (post, json, params, cookiesEnabled, autoFollow, maxRedirects, connectionTimeout)
    }

    /** The attribute bags of the cookie jar, under their keys. */
    ghost function Jar(): Dict<Bag>
      reads this`cookies, set e | e in cookies :: e.1
    {
      BagsIn(cookies)
    }

    /**
     * The situation in which a whole redirect chain can be predicted: `parse_url`
     * parses every string and reports a scheme for it (more than the chain
     * needs), and a URL has been set.
     */
    ghost predicate Following()
      reads this
    {
      ParsesEverything(lib.parseUrl) && hasUrl && UrlTruthy(url)
    }

    /**
     * What a `send` returns and leaves behind, for a call that began in state
     * `before` with jar `jar`, executions `sent` and script `all`, and whose
     * first execution used the options `first`:
     *  - that execution comes right after the earlier ones;
     *  - no Content-Type header is left, and a returned response is the current one;
     *  - a reply that is not followed ends the call after that one execution,
     *    as `SentOnce` says;
     *  - when the chain can be predicted (`following`), the verdict, the
     *    counter, the executions and the replies used are those `Chain`
     *    gives, and an answered chain returns the response built from its
     *    last reply.
     */
    ghost predicate Sends(before: RequestState, jar: Dict<Bag>, sent: seq<map<CurlOpt, OptValue>>,
                          first: map<CurlOpt, OptValue>, all: seq<Exchange>, following: bool,
                          out: Result<Response>, from: Exchange)
      reads this, handle, set e | e in cookies :: e.1
      reads if out.Ok? then {out.value} else {}
      reads if out.Ok? then set c | c in out.value.cookies else {}
    {
      && sent <= handle.sent
      && |sent| < |handle.sent| && handle.sent[..|sent| + 1] == sent + [first]
      && !HasKey(headers, "Content-Type") && (out.Ok? ==> out.value == response)
      && (!FollowsUp(Next(all), before) ==>
            SentOnce(all, before, jar, out, handle.replies, |handle.sent| - |sent|, State(), Jar()))
      && (following ==> Chained(ChainFrom(all, before), sent, all, out, from))
    }

    /**
     * The end of a redirect chain whose run over the script `all`, after the
     * executions `sent`, is `ch` (as `Chain` gives it): the verdict, the
     * counter, the executions and the replies used are those of `ch`
     * (`ChainEnds`), and a response returned is the one built from the last
     * reply used.
     */
    ghost predicate Chained(ch: (Verdict, int, nat), sent: seq<map<CurlOpt, OptValue>>, all: seq<Exchange>,
                            out: Result<Response>, from: Exchange)
      reads this, handle
      reads if out.Ok? then {out.value} else {}
      reads if out.Ok? then set c | c in out.value.cookies else {}
    {
      && Following()
      && ChainEnds(ch, all, VerdictOf(out), redirectCount, handle.replies, |handle.sent| - |sent|, from)
      && (out.Ok? ==> BuiltFrom(out.value, from))
    }

    /**
     * `new Request()`: an empty `Response`, a fresh handle returning the
     * transfer as text with headers, method GET, no URL, redirects off with a
     * limit of 20, cookies off, and nothing set.
     */
    constructor(lib: Library, script: seq<Exchange>)
      ensures this.lib == lib && fresh(handle)
      ensures handle.options == map[ReturnTransfer := Number(1), Header := Number(1)]
      ensures handle.replies == script && handle.sent == []
      ensures fresh(response) && response.code == 0 && response.headers == [] && response.Jar() == []
      ensures httpMethod == GET && !hasUrl && url == None && rawUrl == ""
      ensures headers == [] && cookies == [] && post == [] && json == None && params == []
      ensures !cookiesEnabled && !autoFollow && maxRedirects == 20 && redirectCount == 0 && connectionTimeout == 0
    {
      this.lib := lib;
      NoHeaderText();
      response := new Response();
      handle := new Handle(script);
      cookies := [];
      headers := [];
      httpMethod := GET;
      hasUrl := false;
      url := None;
      rawUrl := "";
      post := [];
      json := None;
      params := [];
      cookiesEnabled := false;
      autoFollow := false;
      maxRedirects := 20;
      redirectCount := 0;
      connectionTimeout := 0;
    }

    /**
     * `setMethod`: one of the five names (case-sensitive) becomes the method
     * and sets its option on the handle; any other name throws and changes nothing.
     */
    method SetMethod(name: string) returns (out: Outcome)
      modifies this, handle
      ensures ParseMethod(name).Some? ==>
                out == Done && State() == old(State()).(httpMethod := ParseMethod(name).value)
                && handle.options == old(handle.options)[MethodOption(httpMethod).0 := MethodOption(httpMethod).1]
      ensures ParseMethod(name).None? ==>
                out == Thrown(InvalidArgument("Unknown method: " + name))
                && State() == old(State()) && handle.options == old(handle.options)
      ensures handle.replies == old(handle.replies) && handle.sent == old(handle.sent)
    {
      var m := ParseMethod(name);
      if m.None? {
        return Thrown(InvalidArgument("Unknown method: " + name));
      }
      var (o, v) := MethodOption(m.value);
      handle.SetOpt(o, v);
      httpMethod := m.value;
      out := Done;
    }

    function GetMethod(): Method
      reads this
    {
      httpMethod
    }

    /** `setConnectTimeout`: kept and handed to the handle at once. */
    method SetConnectTimeout(seconds: int)
      modifies this, handle
      ensures State() == old(State()).(connectionTimeout := seconds)
      ensures handle.options == old(handle.options)[ConnectTimeout := Number(seconds)]
      ensures handle.replies == old(handle.replies) && handle.sent == old(handle.sent)
    {
      connectionTimeout := seconds;
      handle.SetOpt(ConnectTimeout, Number(seconds));
    }

    function GetConnectTimeout(): int
      reads this
    {
      connectionTimeout
    }

    /**
     * `setUrl`: a string is parsed and the parse result stored even when it is
     * falsy; only a truthy result also records the text and marks the URL as
     * set. A non-string throws before anything changes.
     */
    method SetUrl(arg: Arg<string>) returns (out: Outcome)
      modifies this
      ensures arg.WrongType? ==>
                out == Thrown(InvalidArgument("String required, got: " + arg.typeName)) && State() == old(State())
      ensures arg.Given? && !UrlTruthy(lib.parseUrl(arg.value)) ==>
                out == Thrown(InvalidArgument("Invalid URL, got: " + arg.value))
                && State() == old(State()).(url := lib.parseUrl(arg.value))
      ensures arg.Given? && UrlTruthy(lib.parseUrl(arg.value)) ==>
                out == Done && State() == old(State()).(url := lib.parseUrl(arg.value), rawUrl := arg.value, hasUrl := true)
      ensures old(Following()) ==> Following()
    {
      if arg.WrongType? {
        return Thrown(InvalidArgument("String required, got: " + arg.typeName));
      }
      url := lib.parseUrl(arg.value);
      if !UrlTruthy(url) {
        return Thrown(InvalidArgument("Invalid URL, got: " + arg.value));
      }
      rawUrl := arg.value;
      hasUrl := true;
      out := Done;
    }

    function GetUrl(): string
      reads this
    {
      rawUrl
    }

    method EnableCookies()
      modifies this
      ensures State() == old(State()).(cookiesEnabled := true)
    {
      cookiesEnabled := true;
    }

    method DisableCookies()
      modifies this
      ensures State() == old(State()).(cookiesEnabled := false)
    {
      cookiesEnabled := false;
    }

    /**
     * `addCookies`: every entry of the array is stored in order, a cookie object
     * under its own name and a plain value as a new cookie under its key; a later
     * entry with the same name replaces an earlier one in place. An argument that
     * is neither a cookie nor an array throws and changes nothing.
     */
    method AddCookies(arg: CookieArg) returns (out: Outcome)
      modifies this
      ensures arg.NotArray? ==>
                out == Thrown(InvalidArgument("Array required, got:" + arg.typeName)) && State() == old(State())
      ensures !arg.NotArray? ==>
                out == Done && State() == old(State()).(cookies := cookies)
                && Jar() == PutAll(old(Jar()), EntryBags(ArgEntries(arg)))
    {
      if arg.NotArray? {
        return Thrown(InvalidArgument("Array required, got:" + arg.typeName));
      }
      StoreAll(ArgEntries(arg));
      out := Done;
    }

    /** The loop of `addCookies`: every entry is stored in order; no cookie object given changes. */
    method StoreAll(es: seq<(string, CookieValue)>)
      modifies this
      ensures State() == old(State()).(cookies := cookies)
      ensures Jar() == PutAll(old(Jar()), old(EntryBags(es)))
      ensures EntryBags(es) == old(EntryBags(es))
    {
      ghost var bags := EntryBags(es);
      ghost var jar0 := Jar();
      PutAllNone(jar0, bags);
      ghost var acc := jar0;
      var i := 0;
      while i < |es|
        invariant 0 <= i <= |es|
        invariant State() == old(State()).(cookies := cookies)
        invariant forall j :: 0 <= j < |es| ==> EntryBag(es[j]) == bags[j]
        invariant Jar() == acc
        invariant acc == PutAll(jar0, bags[..i])
      {
        StoreNext(es, i, bags);
        PutAllNext(jar0, bags, i, acc, Put(acc, bags[i].0, bags[i].1));
        acc := Put(acc, bags[i].0, bags[i].1);
        i := i + 1;
      }
      assert i == |bags|;
      PutAllAll(jar0, bags);
      assert EntryBags(es) == bags;
    }

    /** Pass `i` of the `addCookies` loop: the jar merges one more entry, and no cookie object given changes. */
    method StoreNext(es: seq<(string, CookieValue)>, i: nat, ghost bags: Dict<Bag>)
      requires i < |es| == |bags| && EntryBag(es[i]) == bags[i]
      modifies this
      ensures State() == old(State()).(cookies := cookies)
      ensures forall j :: 0 <= j < |es| ==> EntryBag(es[j]) == old(EntryBag(es[j]))
      ensures Jar() == Put(old(Jar()), bags[i].0, bags[i].1)
    {
      StoreEntry(es[i]);
    }

    /** One pass of the `addCookies` loop. */
    method StoreEntry(e: (string, CookieValue))
      modifies this
      ensures State() == old(State()).(cookies := cookies)
      ensures Jar() == Put(old(Jar()), EntryBag(e).0, EntryBag(e).1)
      ensures EntryBag(e) == old(EntryBag(e))
    {
      match e.1 {
        case Obj(obj) =>
          StoreCookie(Lookup(obj.data, "name").GetOr(""), obj);
        case Val(v) =>
          var c := new Cookie(e.0, v);
          StoreCookie(e.0, c);
      }
    }

    /** `$this->cookies[$key] = $cookie`. */
    method StoreCookie(key: string, c: Cookie)
      modifies this
      ensures State() == old(State()).(cookies := Put(old(cookies), key, c))
      ensures Jar() == Put(old(Jar()), key, c.data)
    {
      BagsPut(cookies, key, c);
      cookies := Put(cookies, key, c);
    }

    /** `setCookies`: the jar is emptied first, even when the argument then throws. */
    method SetCookies(arg: CookieArg) returns (out: Outcome)
      modifies this
      ensures State() == old(State()).(cookies := cookies)
      ensures arg.NotArray? ==> out == Thrown(InvalidArgument("Array required, got:" + arg.typeName)) && cookies == []
      ensures !arg.NotArray? ==> out == Done && Jar() == PutAll([], EntryBags(ArgEntries(arg)))
    {
      cookies := [];
      out := AddCookies(arg);
    }

    function GetCookies(): Dict<Cookie>
      reads this
    {
      cookies
    }

    /**
     * `getHeader($name, $default)`: a name other than null and `""` is looked up
     * exactly and gives the default when missing (so `"0"` is looked up, unlike
     * in `Response`); null or `""` gives the whole array.
     */
    function GetHeader(name: Option<string>, default: Option<string>): (r: HeaderAnswer)
      reads this
      ensures name.None? || name.value == "" ==> r == All(headers)
      ensures name.Some? && name.value != "" ==>
                r.One? && (HasKey(headers, name.value) ==> r.value == Get(headers, name.value))
                && (!HasKey(headers, name.value) ==> r.value == default)
    {
      if name.Some? && name.value != "" then
        One(if HasKey(headers, name.value) then Get(headers, name.value) else default)
      else All(headers)
    }

    /** `getHeaders`: `getHeader()` with no name. */
    function GetHeaders(): (r: Dict<string>)
      reads this
      ensures All(r) == GetHeader(None, None)
    {
      headers
    }

    /**
     * `addHeaders`: `array_merge` of the current headers with the given array,
     * later values winning; a non-array throws and changes nothing.
     */
    method AddHeaders(arg: Arg<Dict<string>>) returns (out: Outcome)
      modifies this
      ensures arg.WrongType? ==>
                out == Thrown(InvalidArgument("Array required, got: " + arg.typeName)) && State() == old(State())
      ensures arg.Given? ==> out == Done && State() == old(State()).(headers := PutAll(old(headers), arg.value))
    {
      if arg.WrongType? {
        return Thrown(InvalidArgument("Array required, got: " + arg.typeName));
      }
      headers := PutAll(headers, arg.value);
      out := Done;
    }

    /** `setHeaders`: the headers are emptied first, even when the argument then throws. */
    method SetHeaders(arg: Arg<Dict<string>>) returns (out: Outcome)
      modifies this
      ensures arg.WrongType? ==>
                out == Thrown(InvalidArgument("Array required, got: " + arg.typeName)) && State() == old(State()).(headers := [])
      ensures arg.Given? ==> out == Done && State() == old(State()).(headers := PutAll([], arg.value))
    {
      headers := [];
      out := AddHeaders(arg);
    }

    /** `unsetHeader`: the header is gone, every other header keeps its value and place. */
    method UnsetHeader(name: string)
      modifies this
      ensures State() == old(State()).(headers := Remove(old(headers), name))
    {
      RemoveMeaning(headers, name);
      if HasKey(headers, name) {
        headers := Remove(headers, name);
      }
    }

    /**
     * `addPostFields`: every entry is assigned in order, replacing a field of
     * the same name in place; a non-array throws and changes nothing.
     */
    method AddPostFields(arg: Arg<Dict<string>>) returns (out: Outcome)
      modifies this
      ensures arg.WrongType? ==>
                out == Thrown(InvalidArgument("Array required, got: " + arg.typeName)) && State() == old(State())
      ensures arg.Given? ==> out == Done && State() == old(State()).(post := PutAll(old(post), arg.value))
    {
      if arg.WrongType? {
        return Thrown(InvalidArgument("Array required, got: " + arg.typeName));
      }
      var data := arg.value;
      var i := 0;
      while i < |data|
        invariant 0 <= i <= |data|
        invariant State() == old(State()).(post := PutAll(old(post), data[..i]))
      {
        PutAllStep(old(post), data, i);
        post := Put(post, data[i].0, data[i].1);
        i := i + 1;
      }
      assert data[..|data|] == data;
      out := Done;
    }

    /** `setPostFields`: the fields are emptied first, even when the argument then throws. */
    method SetPostFields(arg: Arg<Dict<string>>) returns (out: Outcome)
      modifies this
      ensures arg.WrongType? ==>
                out == Thrown(InvalidArgument("Array required, got: " + arg.typeName)) && State() == old(State()).(post := [])
      ensures arg.Given? ==> out == Done && State() == old(State()).(post := PutAll([], arg.value))
    {
      post := [];
      out := AddPostFields(arg);
    }

    function GetPostFields(): Dict<string>
      reads this
    {
      post
    }

    /** `setJSON`: an array replaces the JSON to send; anything else throws and changes nothing. */
    method SetJson(arg: Arg<Dict<string>>) returns (out: Outcome)
      modifies this
      ensures arg.WrongType? ==> out == Thrown(InvalidArgument("JSON must be array")) && State() == old(State())
      ensures arg.Given? ==> out == Done && State() == old(State()).(json := Some(arg.value))
    {
      if arg.WrongType? {
        return Thrown(InvalidArgument("JSON must be array"));
      }
      json := Some(arg.value);
      out := Done;
    }

    /** `addParams`: as `addPostFields`, for the URL parameters. */
    method AddParams(arg: Arg<Dict<string>>) returns (out: Outcome)
      modifies this
      ensures arg.WrongType? ==>
                out == Thrown(InvalidArgument("Array required, got: " + arg.typeName)) && State() == old(State())
      ensures arg.Given? ==> out == Done && State() == old(State()).(params := PutAll(old(params), arg.value))
    {
      if arg.WrongType? {
        return Thrown(InvalidArgument("Array required, got: " + arg.typeName));
      }
      var data := arg.value;
      var i := 0;
      while i < |data|
        invariant 0 <= i <= |data|
        invariant State() == old(State()).(params := PutAll(old(params), data[..i]))
      {
        PutAllStep(old(params), data, i);
        params := Put(params, data[i].0, data[i].1);
        i := i + 1;
      }
      assert data[..|data|] == data;
      out := Done;
    }

    /** `setParams`: the parameters are emptied first, even when the argument then throws. */
    method SetParams(arg: Arg<Dict<string>>) returns (out: Outcome)
      modifies this
      ensures arg.WrongType? ==>
                out == Thrown(InvalidArgument("Array required, got: " + arg.typeName)) && State() == old(State()).(params := [])
      ensures arg.Given? ==> out == Done && State() == old(State()).(params := PutAll([], arg.value))
    {
      params := [];
      out := AddParams(arg);
    }

    /** `enableRedirects($limit = 20)`. */
    method EnableRedirects(limit: int := 20)
      modifies this
      ensures State() == old(State()).(autoFollow := true, maxRedirects := limit)
    {
      autoFollow := true;
      maxRedirects := limit;
    }

    /** `disableRedirects`: the limit is kept. */
    method DisableRedirects()
      modifies this
      ensures State() == old(State()).(autoFollow := false)
    {
      autoFollow := false;
    }

    /** `getResponseCode`. */
    function GetResponseCode(): int
      reads this, response
    {
      response.code
    }

    /** `getResponseHeader($name, $default)`: asked of the current response. */
    function GetResponseHeader(name: Option<string>, default: Option<string>): HeaderAnswer
      reads this, response
    {
      response.GetHeader(name, default)
    }

    /** `getResponseCookies`. */
    function GetResponseCookies(): seq<Cookie>
      reads this, response
    {
      response.cookies
    }

    /** `getResponseBody`: decoded by the current response, which keeps the result. */
    method GetResponseBody(codecs: Codecs) returns (r: string)
      modifies response
      ensures response.decodedBody == r
      ensures old(response.decodedBody) != "" ==> r == old(response.decodedBody) && response.body == old(response.body)
      ensures old(response.decodedBody) == "" ==>
                (response.body, r) == Decoded(response.headers, old(response.body), codecs)
      ensures response.code == old(response.code) && response.headers == old(response.headers)
      ensures response.cookies == old(response.cookies)
    {
      r := response.GetBody(codecs);
    }

    /**
     * `setUpCookies`: the cookies that pass the filter, in jar order, are
     * written by `__toString` and joined with `; ` into `CURLOPT_COOKIE`;
     * when none passes, the option is not touched.
     */
    method SetUpCookies(ghost jar: Dict<Bag>)
      requires jar == Jar()
      modifies handle
      ensures handle.options == WithCookies(old(handle.options), jar, url)
      ensures handle.replies == old(handle.replies) && handle.sent == old(handle.sent)
    {
      var tmp := KeptCookies();
      if |tmp| > 0 {
        handle.SetOpt(Cookie, Text(Join(tmp, "; ")));
      }
    }

    /** The loop of `setUpCookies`: the text of every cookie the filter keeps, in jar order. */
    method KeptCookies() returns (tmp: seq<string>)
      ensures |tmp| == |Survivors(Jar(), url)|
      ensures forall j :: 0 <= j < |tmp| ==> tmp[j] == Render(Survivors(Jar(), url)[j])
      ensures Join(tmp, "; ") == CookieLine(Survivors(Jar(), url))
    {
      tmp := [];
      ghost var jar := Jar();
      ghost var kept: seq<Bag> := [];
      var i := 0;
      while i < |cookies|
        invariant 0 <= i <= |cookies|
        invariant kept == Survivors(jar[..i], url)
        invariant |tmp| == |kept| && forall j :: 0 <= j < |tmp| ==> tmp[j] == Render(kept[j])
      {
        var c := cookies[i].1;
        var keep := Passes(c.data);
        SurvivorsStep(jar, i, url);
        if keep {
          tmp := tmp + [Render(c.data)];
          kept := kept + [c.data];
        }
        i := i + 1;
      }
      assert jar[..|cookies|] == jar;
      assert tmp == seq(|kept|, j requires 0 <= j < |kept| => Render(kept[j]));
    }

    /** The three checks of the `setUpCookies` loop, each skipping the cookie when it fails. */
    method Passes(bag: Bag) returns (keep: bool)
      ensures keep == Allowed(bag, url)
    {
      keep := true;
      if "domain" in bag && url.Some? && url.value.host.Some? && !DomainMatches(bag["domain"], url.value.host.value) {
        keep := false;
      }
      if keep && "path" in bag && url.Some? && url.value.path.Some? && !Contains(url.value.path.value, bag["path"]) {
        keep := false;
      }
      if keep && "Secure" in bag && url.Some? && url.value.scheme.Some? && !SecureScheme(url.value.scheme.value) {
        keep := false;
      }
    }

    /** `setUpHeaders`: every header as `key: value`, in array order; with no header the option is not touched. */
    method SetUpHeaders()
      modifies handle
      ensures handle.options == WithHeaderLines(old(handle.options), headers)
      ensures handle.replies == old(handle.replies) && handle.sent == old(handle.sent)
    {
      if |headers| > 0 {
        var tmp: seq<string> := [];
        var i := 0;
        while i < |headers|
          invariant 0 <= i <= |headers|
          invariant |tmp| == i && forall j :: 0 <= j < i ==> tmp[j] == headers[j].0 + ": " + headers[j].1
        {
          tmp := tmp + [headers[i].0 + ": " + headers[i].1];
          i := i + 1;
        }
        assert tmp == HeaderLines(headers);
        handle.SetOpt(HttpHeader, Lines(tmp));
      }
    }

    /**
     * `setCurlPostFields`: for POST, PUT and DELETE only, the body goes to
     * `CURLOPT_POSTFIELDS`, URL-encoded under a urlencoded Content-Type.
     * `http_build_query` is never handed JSON text: JSON comes with its own
     * Content-Type.
     */
    method SetCurlPostFields(payload: Payload)
      requires payload.JsonText? ==> !UrlEncoded(Get(headers, "Content-Type"))
      modifies handle
      ensures handle.options == if CarriesBody(httpMethod)
                                then old(handle.options)[PostFields := PostValue(payload, Get(headers, "Content-Type"), lib)]
                                else old(handle.options)
      ensures handle.replies == old(handle.replies) && handle.sent == old(handle.sent)
    {
      if httpMethod == POST || httpMethod == PUT || httpMethod == DELETE {
        var contentType := Get(headers, "Content-Type");
        if contentType.Some? && Contains(Lower(contentType.value), "urlencoded") {
          handle.SetOpt(PostFields, Text(lib.buildQuery(payload.fields)));
        } else {
          handle.SetOpt(PostFields, match payload case Fields(f) => Form(f) case JsonText(t) => Text(t));
        }
      }
    }

    /**
     * The steps of `send` before `curl_exec`: the target URL, the JSON
     * Content-Type merged into the headers, then cookies, headers and body
     * handed to the handle.
     */
    method Prepare()
      modifies this, handle
      ensures State() == old(State()).(headers := SentHeaders(old(headers), old(json)))
      ensures handle.options == Prepared(old(handle.options), old(State()), old(Jar()), lib)
      ensures handle.replies == old(handle.replies) && handle.sent == old(handle.sent)
      ensures Jar() == old(Jar())
    {
      ghost var h0 := headers;
      ghost var jar := Jar();
      handle.SetOpt(Url, Text(Target(rawUrl, params, lib)));
      if json.Some? {
        // `addHeaders` with the JSON Content-Type
        headers := PutAll(headers, [("Content-Type", JsonType)]);
      }
      HandOver(jar, h0);
    }

    /** `setUpCookies`, `setUpHeaders` and the post-field step of `send`, once the JSON Content-Type is merged in. */
    method HandOver(ghost jar: Dict<Bag>, ghost h0: Dict<string>)
      requires jar == Jar() && headers == SentHeaders(h0, json)
      modifies handle
      ensures handle.options == WithBody(WithHeaderLines(WithCookies(old(handle.options), jar, url), headers), httpMethod, h0, post, json, lib)
      ensures handle.replies == old(handle.replies) && handle.sent == old(handle.sent)
    {
      SetUpCookies(jar);
      SetUpHeaders();
      if post != [] || JsonTruthy(json) {
        JsonNotUrlEncoded();
        SetCurlPostFields(PayloadOf(post, json, lib));
      }
    }

    /**
     * The steps of `send` after `curl_exec`: the Content-Type header is
     * dropped whatever happened (a user-set one included); a failed exchange
     * throws with its error number; otherwise the last response in the text
     * becomes the current response and, with cookies on, its cookies join the
     * jar under their names.
     */
    method Receive(x: Exchange) returns (out: Outcome)
      modifies this
      ensures !Delivers(x) ==>
                out == Thrown(TransportError(ErrNo(x)))
                && State() == old(State()).(headers := Remove(old(headers), "Content-Type"))
      ensures Delivers(x) ==>
                out == Done && fresh(response) && BuiltFrom(response, x)
                && State() == old(State()).(headers := Remove(old(headers), "Content-Type"), response := response, cookies := cookies)
      ensures Jar() == AfterReply(old(Jar()), x, cookiesEnabled)
    {
      ghost var jar := Jar();
      UnsetHeader("Content-Type");
      if !Delivers(x) {
        return Thrown(TransportError(ErrNo(x)));
      }
      Accept(x, jar);
      out := Done;
    }

    /** A delivered exchange becomes the current response; with cookies on, its cookies join the jar. */
    method Accept(x: Exchange, ghost jar: Dict<Bag>)
      requires x.Delivered? && jar == Jar()
      modifies this
      ensures fresh(response) && BuiltFrom(response, x)
      ensures State() == old(State()).(response := response, cookies := cookies)
      ensures Jar() == if cookiesEnabled then PutAll(jar, Named(response.Jar())) else jar
    {
      response := Build(x);
      if cookiesEnabled {
        TakeCookies(jar, x);
      }
    }

    /** `addCookies($this->response->getCookies())`: every cookie received is filed under its name. */
    method TakeCookies(ghost jar: Dict<Bag>, ghost x: Exchange)
      requires jar == Jar() && BuiltFrom(response, x)
      modifies this
      ensures State() == old(State()).(cookies := cookies)
      ensures BuiltFrom(response, x)
      ensures Jar() == PutAll(jar, Named(response.Jar()))
    {
      var _ := AddCookies(Entries(AsEntries(response.cookies)));
      NamedEntries(response.cookies);
    }

    /**
     * The first half of `doFollow`: the method becomes GET, the `Location` of
     * the last response is resolved against the current URL and set as the
     * new URL, and only when that succeeds is the new URL text sent on as
     * `Referer` and the redirect counted.
     */
    method PrepareFollow() returns (out: Outcome)
      modifies this, handle
      ensures handle.options == old(handle.options)[HttpGet := Flag(true)]
      ensures handle.replies == old(handle.replies) && handle.sent == old(handle.sent)
      ensures (out, State()) == Followed(old(State()), Get(old(response.headers), "Location"), lib)
      ensures cookies == old(cookies) && Jar() == old(Jar())
    {
      ghost var jar := Jar();
      ParseMethodName(GET);
      var _ := SetMethod(MethodName(GET));
      assert Jar() == jar;
      FollowedIgnoresMethod(old(State()), Get(old(response.headers), "Location"), lib);
      out := Relocate();
      assert Jar() == jar;
    }

    /**
     * The rest of `doFollow` before its `send`, once the method is GET: the
     * `Location` of the last response, resolved against the current URL,
     * becomes the new URL; only when that succeeds is it sent on as `Referer`
     * and the redirect counted.
     */
    method Relocate() returns (out: Outcome)
      requires httpMethod == GET
      modifies this
      ensures (out, State()) == Followed(old(State()), Get(old(response.headers), "Location"), lib)
      ensures cookies == old(cookies)
    {
      ghost var before := State();
      var location := response.GetHeader(Some("Location"), None).value;
      out := Retarget(Resolve(location, url));
      ghost var retargeted := State();
      FollowedCounts(before, location, lib, out, retargeted);
      if out.Done? {
        redirectCount := redirectCount + 1;
        assert State() == retargeted.(redirectCount := before.redirectCount + 1);
      }
    }

    /**
     * `setUrl($location)` followed, when it succeeds, by `addHeaders` with the
     * new URL text as `Referer`. A missing location reaches `setUrl` as null,
     * which throws.
     */
    method Retarget(target: Option<string>) returns (out: Outcome)
      modifies this
      ensures Retargeting(old(State()), target, lib) == (out, State())
      ensures Config() == old(Config()) && redirectCount == old(redirectCount) && httpMethod == old(httpMethod)
      ensures cookies == old(cookies)
      ensures out.Thrown? ==> headers == old(headers)
      ensures Get(headers, "Content-Type") == Get(old(headers), "Content-Type")
      ensures ParsesEverything(lib.parseUrl) && target.Some? ==> out == Done && hasUrl && UrlTruthy(url)
    {
      out := SetUrl(if target.Some? then Given(target.value) else WrongType("NULL"));
      if out.Thrown? {
        assert "String required, got: " + "NULL" == "String required, got: NULL";
        return;
      }
      var _ := AddHeaders(Given([("Referer", rawUrl)]));
      PutAllMeaning(old(headers), [("Referer", rawUrl)]);
      assert Keys([("Referer", rawUrl)]) == ["Referer"];
    }

    /**
     * `doFollow`: the follow-up request is prepared and sent, and what that
     * `send` returns becomes the current response. When the whole chain can be
     * predicted, that `send` is the one `Sends` describes from the follow-up
     * state: it begins with the options `Prepared` makes from that state.
     */
    method DoFollow() returns (out: Result<Response>, ghost from: Exchange)
      requires redirectCount < maxRedirects
      modifies this, handle
      decreases maxRedirects - redirectCount, 0
      ensures Config() == old(Config())
      ensures old(handle.sent) <= handle.sent
      ensures !HasKey(old(headers), "Content-Type") ==> !HasKey(headers, "Content-Type")
      ensures out.Ok? ==> out.value == response
      ensures old(Following()) ==>
                var target := Resolve(Get(old(response.headers), "Location"), old(url));
                var st := FollowUp(old(State()), target.value, lib);
                target.Some?
                && Sends(st, old(Jar()), old(handle.sent), Prepared(old(handle.options)[HttpGet := Flag(true)], st, old(Jar()), lib),
                         old(handle.replies), true, out, from)
    {
      var o := PrepareFollow();
      if old(Following()) {
        FollowedUp(old(State()), Get(old(response.headers), "Location"), lib);
      }
      if o.Thrown? {
        return Err(o.error), Failed(0);
      }
      // `$this->response = $this->send()`: a `send` with a URL that returns has
      // already made its result the response, so the field keeps the object it holds.
      out, from := Send();
    }

    /**
     * `send`: without a URL, a new empty response and nothing else; with one,
     * the exchange `Sends` describes.
     */
    method Send() returns (out: Result<Response>, ghost from: Exchange)
      modifies this, handle
      decreases maxRedirects - redirectCount, 4
      ensures Config() == old(Config())
      ensures old(handle.sent) <= handle.sent
      ensures !old(hasUrl) ==>
                out.Ok? && fresh(out.value) && out.value.code == 0 && out.value.headers == [] && out.value.Jar() == []
                && State() == old(State()) && handle.options == old(handle.options)
                && handle.replies == old(handle.replies) && handle.sent == old(handle.sent)
      ensures old(hasUrl) ==> Sends(old(State()), old(Jar()), old(handle.sent), Prepared(old(handle.options), old(State()), old(Jar()), lib), old(handle.replies), old(Following()), out, from)
      ensures old(hasUrl) && Delivers(Next(old(handle.replies))) && !FollowsUp(Next(old(handle.replies)), old(State())) ==>
                fresh(response) && BuiltFrom(response, Next(old(handle.replies)))
    {
      if !hasUrl {
        var empty := DefaultResponse();
        return Ok(empty), Failed(0);
      }
      out, from := Deliver();
    }

    /**
     * `send` with a URL: the request goes out with the options `Prepared`
     * describes and the Content-Type header is dropped; a reply then becomes
     * the response and `Conclude` decides how the call ends.
     */
    method Deliver() returns (out: Result<Response>, ghost from: Exchange)
      requires hasUrl
      modifies this, handle
      decreases maxRedirects - redirectCount, 3
      ensures Config() == old(Config())
      ensures Sends(old(State()), old(Jar()), old(handle.sent), Prepared(old(handle.options), old(State()), old(Jar()), lib), old(handle.replies), old(Following()), out, from)
      ensures Delivers(Next(old(handle.replies))) && !FollowsUp(Next(old(handle.replies)), old(State())) ==>
                fresh(response) && BuiltFrom(response, Next(old(handle.replies)))
    {
      ghost var before, jar, sent, opts, all, following := State(), Jar(), handle.sent, handle.options, handle.replies, Following();
      var o := Transmit();
      out, from := Conclude(o, before, jar, sent, Prepared(opts, before, jar, lib), all, following);
    }

    /**
     * One exchange of `send`: the options are prepared, `curl_exec` runs, the
     * Content-Type header is dropped, and a delivered reply becomes the response.
     */
    method Transmit() returns (o: Outcome)
      requires hasUrl
      modifies this, handle
      ensures handle.sent == old(handle.sent) + [Prepared(old(handle.options), old(State()), old(Jar()), lib)]
      ensures handle.replies == Rest(old(handle.replies))
      ensures !Delivers(Next(old(handle.replies))) ==>
                o == Thrown(TransportError(ErrNo(Next(old(handle.replies)))))
                && State() == old(State()).(headers := AfterSend(old(State())))
      ensures Delivers(Next(old(handle.replies))) ==>
                o == Done && fresh(response) && BuiltFrom(response, Next(old(handle.replies)))
                && State() == old(State()).(headers := AfterSend(old(State())), response := response, cookies := cookies)
      ensures Jar() == AfterReply(old(Jar()), Next(old(handle.replies)), cookiesEnabled)
      ensures Following() == old(Following()) && Config() == old(Config()) && !HasKey(headers, "Content-Type")
    {
      ghost var jar, all := Jar(), handle.replies;
      Prepare();
      var x := handle.Exec();
      assert x == Next(all) && Jar() == jar;
      o := Receive(x);
      assert Jar() == AfterReply(jar, x, cookiesEnabled);
      RemoveMeaning(SentHeaders(old(headers), old(json)), "Content-Type");
    }

    /**
     * The end of `send` once the exchange is over, for a request that was in
     * state `before` with jar `jar`, executions `sent` and script `all` when
     * `send` began, and sent the options `first`: a failure throws; a 301, 302
     * or 303 is followed while following is on and the counter is below the
     * limit; otherwise `Settle` decides.
     */
    method Conclude(o: Outcome, ghost before: RequestState, ghost jar: Dict<Bag>, ghost sent: seq<map<CurlOpt, OptValue>>,
                    ghost first: map<CurlOpt, OptValue>, ghost all: seq<Exchange>, ghost following: bool)
      returns (out: Result<Response>, ghost from: Exchange)
      requires handle.sent == sent + [first] && handle.replies == Rest(all)
      requires Jar() == AfterReply(jar, Next(all), cookiesEnabled)
      requires following == Following() && !HasKey(headers, "Content-Type")
      requires !Delivers(Next(all)) ==>
                 o == Thrown(TransportError(ErrNo(Next(all)))) && State() == before.(headers := AfterSend(before))
      requires Delivers(Next(all)) ==>
                 o == Done && BuiltFrom(response, Next(all))
                 && State() == before.(headers := AfterSend(before), response := response, cookies := cookies)
      modifies this, handle
      decreases maxRedirects - redirectCount, 2
      ensures Config() == old(Config())
      ensures Sends(before, jar, sent, first, all, following, out, from)
      ensures Delivers(Next(all)) && !FollowsUp(Next(all), before) ==>
                response == old(response) && BuiltFrom(response, Next(all))
    {
      if o.Thrown? {
        return Err(o.error), Next(all);
      }
      if autoFollow && IsRedirect(response.code) && redirectCount < maxRedirects {
        out, from := FollowOn(before, jar, sent, first, all, following);
      } else {
        out, from := Settle(before, jar, sent, first, all, following);
      }
    }

    /** The redirect branch of `send`: `doFollow`, one step further along the chain. */
    method FollowOn(ghost before: RequestState, ghost jar: Dict<Bag>, ghost sent: seq<map<CurlOpt, OptValue>>,
                      ghost first: map<CurlOpt, OptValue>, ghost all: seq<Exchange>, ghost following: bool)
      returns (out: Result<Response>, ghost from: Exchange)
      requires handle.sent == sent + [first] && handle.replies == Rest(all)
      requires Jar() == AfterReply(jar, Next(all), cookiesEnabled)
      requires following == Following() && !HasKey(headers, "Content-Type")
      requires Delivers(Next(all)) && BuiltFrom(response, Next(all))
      requires State() == before.(headers := AfterSend(before), response := response, cookies := cookies)
      requires FollowsUp(Next(all), before)
      modifies this, handle
      decreases maxRedirects - redirectCount, 1
      ensures Config() == old(Config())
      ensures Sends(before, jar, sent, first, all, following, out, from)
      ensures Delivers(Next(all)) && !FollowsUp(Next(all), before) ==>
                response == old(response) && BuiltFrom(response, Next(all))
    {
      ghost var target := Resolve(Get(response.headers, "Location"), url);
      ghost var st := FollowUp(State(), target.GetOr(""), lib);
      ghost var next := Prepared(handle.options[HttpGet := Flag(true)], st, Jar(), lib);
      ghost var jarNow := Jar();
      out, from := DoFollow();
      FollowedSends(before, jar, sent, first, all, following, out, from, st, jarNow, next);
    }

    /**
     * A followed redirect puts one exchange in front of the `send` that
     * follows it: when that `send`, made one redirect further on over the
     * rest of the script, is the one `Sends` describes, so is the whole call.
     */
    lemma FollowedSends(before: RequestState, jar: Dict<Bag>, sent: seq<map<CurlOpt, OptValue>>,
                        first: map<CurlOpt, OptValue>, all: seq<Exchange>, following: bool,
                        out: Result<Response>, from: Exchange,
                        st: RequestState, jarNext: Dict<Bag>, next: map<CurlOpt, OptValue>)
      requires FollowsUp(Next(all), before)
      requires st.redirectCount == before.redirectCount + 1 && st.maxRedirects == before.maxRedirects
               && st.autoFollow == before.autoFollow
      requires sent + [first] <= handle.sent && !HasKey(headers, "Content-Type") && (out.Ok? ==> out.value == response)
      requires following ==> Sends(st, jarNext, sent + [first], next, Rest(all), true, out, from)
      ensures Sends(before, jar, sent, first, all, following, out, from)
    {
      PrefixExtended(sent, first, handle.sent);
      if following {
        ChainedFollows(before, sent + [first], all, out, from, st);
      }
    }

    /** The chain after a followed redirect, one exchange longer, is the chain from the state before it. */
    lemma ChainedFollows(before: RequestState, sent: seq<map<CurlOpt, OptValue>>, all: seq<Exchange>,
                         out: Result<Response>, from: Exchange, st: RequestState)
      requires FollowsUp(Next(all), before) && |sent| > 0
      requires st.redirectCount == before.redirectCount + 1 && st.maxRedirects == before.maxRedirects
               && st.autoFollow == before.autoFollow
      requires Chained(ChainFrom(Rest(all), st), sent, Rest(all), out, from)
      ensures Chained(ChainFrom(all, before), sent[..|sent| - 1], all, out, from)
    {
      EndsFollows(all, before.redirectCount, before.maxRedirects, before.autoFollow,
                  VerdictOf(out), redirectCount, handle.replies, |handle.sent| - |sent|, from);
    }

    /**
     * The other branch of `send` after a delivered reply: a counter at the
     * limit throws; any other counter is reset to 0 and the response returned.
     */
    method Settle(ghost before: RequestState, ghost jar: Dict<Bag>, ghost sent: seq<map<CurlOpt, OptValue>>,
                    ghost first: map<CurlOpt, OptValue>, ghost all: seq<Exchange>, ghost following: bool)
      returns (out: Result<Response>, ghost from: Exchange)
      requires handle.sent == sent + [first] && handle.replies == Rest(all)
      requires Jar() == AfterReply(jar, Next(all), cookiesEnabled)
      requires following == Following() && !HasKey(headers, "Content-Type")
      requires Delivers(Next(all)) && BuiltFrom(response, Next(all))
      requires State() == before.(headers := AfterSend(before), response := response, cookies := cookies)
      requires !FollowsUp(Next(all), before)
      modifies this
      ensures Config() == old(Config())
      ensures Sends(before, jar, sent, first, all, following, out, from)
      ensures Delivers(Next(all)) && !FollowsUp(Next(all), before) ==>
                response == old(response) && BuiltFrom(response, Next(all))
    {
      from := Next(all);
      if redirectCount == maxRedirects {
        out := Err(TooManyRedirects(maxRedirects));
      } else {
        redirectCount := 0;
        out := Ok(response);
      }
      SettledSends(before, jar, sent, first, all, following, out, from);
    }

    /** A delivered reply that is not followed ends the call after that one exchange, as `Sends` says. */
    lemma SettledSends(before: RequestState, jar: Dict<Bag>, sent: seq<map<CurlOpt, OptValue>>,
                       first: map<CurlOpt, OptValue>, all: seq<Exchange>, following: bool,
                       out: Result<Response>, from: Exchange)
      requires handle.sent == sent + [first] && handle.replies == Rest(all)
      requires Jar() == AfterReply(jar, Next(all), before.cookiesEnabled)
      requires (following ==> Following()) && !HasKey(headers, "Content-Type")
      requires Delivers(Next(all)) && !FollowsUp(Next(all), before) && from == Next(all) && BuiltFrom(response, from)
      requires State() == before.(headers := AfterSend(before), response := response, cookies := cookies,
                                  redirectCount := redirectCount)
      requires if before.redirectCount == before.maxRedirects
               then out == Err(TooManyRedirects(before.maxRedirects)) && redirectCount == before.redirectCount
               else out == Ok(response) && redirectCount == 0
      ensures Sends(before, jar, sent, first, all, following, out, from)
    {
      PrefixExtended(sent, first, handle.sent);
      EndsStopping(all, before.redirectCount, before.maxRedirects, before.autoFollow,
                   VerdictOf(out), redirectCount, handle.replies, |handle.sent| - |sent|, from);
    }
  }
}
