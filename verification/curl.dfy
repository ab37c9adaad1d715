/**
 * `Curl`: the refactored transport. It owns a cURL handle and a redirect
 * counter of its own, reads everything else from the `Request` it is handed,
 * and changes that request as `send` of `Request` changes itself (method,
 * URL, headers, cookies). Unlike `Request`, it sends the URL text without
 * parameters, every cookie without filtering, and sets the method option at
 * every exchange.
 */
module CurlClient {
  import opened Wrappers
  import opened Strings
  import opened Dicts
  import opened HttpTypes
  import opened Transport
  import opened Cookies
  import opened Responses
  import opened Lifecycle
  import opened Requests

  /**
   * The options after `setCookies`: every cookie of the jar, in jar order,
   * joined with `"; "`; with no cookie the option is not touched.
   */
  function WithAllCookies(opts: map<CurlOpt, OptValue>, jar: Dict<Bag>): map<CurlOpt, OptValue> {
    if jar != [] then opts[Cookie := Text(CookieLine(Values(jar)))] else opts
  }

  /** The options after `setMethod`: the option of the request's method. */
  function WithMethod(opts: map<CurlOpt, OptValue>, m: Method): map<CurlOpt, OptValue> {
    opts[MethodOption(m).0 := MethodOption(m).1]
  }

  /**
   * The options the handle holds when `send` of `Curl` executes: the URL text
   * as it is, all cookies, the header lines (with the JSON Content-Type merged
   * in), the method, and the body, each set only when `send` sets it.
   */
  function CurlPrepared(opts: map<CurlOpt, OptValue>, st: RequestState, jar: Dict<Bag>, lib: Library): map<CurlOpt, OptValue> {
    var withUrl := opts[Url := Text(st.rawUrl)];
    var withHeaders := WithHeaderLines(WithAllCookies(withUrl, jar), SentHeaders(st.headers, st.json));
    WithBody(WithMethod(withHeaders, st.httpMethod), st.httpMethod, st.headers, st.post, st.json, lib)
  }

  /** The parameters of the request never reach the URL: the text set by `setUrl` goes out as it is. */
  lemma ParamsNeverSent(opts: map<CurlOpt, OptValue>, st: RequestState, jar: Dict<Bag>, lib: Library)
    ensures Url in CurlPrepared(opts, st, jar, lib) && CurlPrepared(opts, st, jar, lib)[Url] == Text(st.rawUrl)
  {
    var withUrl := opts[Url := Text(st.rawUrl)];
    var withCookies := WithAllCookies(withUrl, jar);
    assert Url in withCookies && withCookies[Url] == withUrl[Url];
    var withHeaders := WithHeaderLines(withCookies, SentHeaders(st.headers, st.json));
    var withMethod := WithMethod(withHeaders, st.httpMethod);
    assert Url in withMethod && withMethod[Url] == Text(st.rawUrl);
    BodyKeeps(withMethod, st.httpMethod, st.headers, st.post, st.json, lib, Url);
  }

  /**
   * Every cookie of the jar goes out, whatever its `domain`, `path` or
   * `Secure`: a cookie the filter of `Request` would hold back is sent.
   */
  lemma EveryCookieSent(opts: map<CurlOpt, OptValue>, st: RequestState, jar: Dict<Bag>, lib: Library)
    requires jar != []
    ensures Cookie in CurlPrepared(opts, st, jar, lib)
    ensures CurlPrepared(opts, st, jar, lib)[Cookie] == Text(CookieLine(Values(jar)))
  {
    var withCookies := WithAllCookies(opts[Url := Text(st.rawUrl)], jar);
    var withHeaders := WithHeaderLines(withCookies, SentHeaders(st.headers, st.json));
    var withMethod := WithMethod(withHeaders, st.httpMethod);
    assert Cookie in withMethod && withMethod[Cookie] == Text(CookieLine(Values(jar)));
    BodyKeeps(withMethod, st.httpMethod, st.headers, st.post, st.json, lib, Cookie);
  }

  /** When the filter of `Request` keeps every cookie, both clients send the same cookie line. */
  lemma SameCookiesWhenAllAllowed(opts: map<CurlOpt, OptValue>, jar: Dict<Bag>, url: Option<UrlParts>)
    requires forall i :: 0 <= i < |jar| ==> Allowed(jar[i].1, url)
    ensures WithCookies(opts, jar, url) == WithAllCookies(opts, jar)
  {
    AllKept(jar, url);
  }

  /** The method option of the request goes out with every exchange. */
  lemma MethodSent(opts: map<CurlOpt, OptValue>, st: RequestState, jar: Dict<Bag>, lib: Library)
    ensures MethodOption(st.httpMethod).0 in CurlPrepared(opts, st, jar, lib)
    ensures CurlPrepared(opts, st, jar, lib)[MethodOption(st.httpMethod).0] == MethodOption(st.httpMethod).1
  {
    var withCookies := WithAllCookies(opts[Url := Text(st.rawUrl)], jar);
    var withHeaders := WithHeaderLines(withCookies, SentHeaders(st.headers, st.json));
    BodyKeeps(WithMethod(withHeaders, st.httpMethod), st.httpMethod, st.headers, st.post, st.json, lib, MethodOption(st.httpMethod).0);
  }

  /**
   * Where the first half of `doFollow` of `Curl` leaves the request: the URL
   * text is parsed again when the location is relative (which throws when it
   * does not parse), then `setUrl` with the resolved location, and on success
   * the new URL text as `Referer`.
   */
  predicate CurlRelocated(before: RequestState, resolved: Result<Option<string>>, out: Outcome, after: RequestState, lib: Library) {
    if resolved.Err? then out == Thrown(resolved.error) && after == before
    else Retargeting(before, resolved.value, lib) == (out, after)
  }

  /**
   * From a URL text that is set, and with a `parse_url` that parses
   * everything, every location resolves to a truthy URL text that parses.
   */
  lemma CurlTargetParses(location: Option<string>, rawUrl: string, lib: Library)
    requires Truthy(rawUrl) && ParsesEverything(lib.parseUrl)
    ensures var r := ResolveAgainst(location, rawUrl, lib);
            r.Ok? && r.value.Some? && Truthy(r.value.value) && UrlTruthy(lib.parseUrl(r.value.value))
  {
    var parsed := lib.parseUrl(rawUrl);
    assert parsed.Some? && parsed.value.scheme.Some?;
    ResolvedTruthy(location, parsed);
    var t := Resolve(location, parsed).value;
    assert lib.parseUrl(t).Some? && lib.parseUrl(t).value.scheme.Some?;
  }

  /** Whether `send` of `Curl`, with the client's counter at `count`, follows reply `x` with `doFollow`. */
  predicate CurlFollowsUp(x: Exchange, count: int, max: int, enabled: bool) {
    Delivers(x) && enabled && IsRedirect(x.code) && count < max
  }

  /** The URL text a follow-up of `Curl` goes to: the location resolved against the URL text, or "" when it does not resolve. */
  function CurlTarget(location: Option<string>, rawUrl: string, lib: Library): string {
    var resolved := ResolveAgainst(location, rawUrl, lib);
    if resolved.Ok? && resolved.value.Some? then resolved.value.value else ""
  }

  /**
   * The request a successful `doFollow` of `Curl` sends, from request state
   * `st` and a last response with `Location` header `location`: method GET,
   * and the resolved location as URL text, parsed URL and `Referer`. The
   * redirect counter is the client's, so the request's own stays.
   */
  function CurlFollowUp(st: RequestState, location: Option<string>, lib: Library): RequestState {
    var target := CurlTarget(location, st.rawUrl, lib);
    st.(httpMethod := GET, url := lib.parseUrl(target), rawUrl := target, hasUrl := true,
        headers := PutAll(st.headers, [("Referer", target)]))
  }

  /**
   * When the chain can be predicted, the first half of `doFollow` of `Curl`
   * always succeeds, and it leaves the request in the follow-up state, whose
   * URL text is truthy.
   */
  lemma CurlFollowedUp(before: RequestState, location: Option<string>, out: Outcome, after: RequestState, lib: Library)
    requires Truthy(before.rawUrl) && ParsesEverything(lib.parseUrl)
    requires CurlRelocated(before.(httpMethod := GET), ResolveAgainst(location, before.rawUrl, lib), out, after, lib)
    ensures ResolveAgainst(location, before.rawUrl, lib) == Ok(Some(CurlTarget(location, before.rawUrl, lib)))
    ensures Truthy(CurlTarget(location, before.rawUrl, lib))
    ensures out == Done && after == CurlFollowUp(before, location, lib)
  {
    CurlTargetParses(location, before.rawUrl, lib);
  }

  /**
   * A `send` of `Curl` past the URL test that makes exactly one exchange,
   * from request state `before`, jar `jar`, counter `count` and script
   * `all`, to state `after`, jar `jarAfter`, counter `countAfter` and script
   * `left`: the Content-Type header is gone and nothing else of the request
   * but its cookies changes; a failure throws its error number and keeps the
   * counter; a delivered reply's cookies join the jar when cookies are on,
   * and the call then throws at the limit or resets the counter.
   */
  predicate CurlSentOnce(all: seq<Exchange>, before: RequestState, jar: Dict<Bag>, count: int, max: int, out: Result<Response>,
                         left: seq<Exchange>, sends: int, after: RequestState, jarAfter: Dict<Bag>, countAfter: int)
  {
    sends == 1 && left == Rest(all)
    && after == before.(headers := AfterSend(before), cookies := after.cookies)
    && jarAfter == AfterReply(jar, Next(all), before.cookiesEnabled)
    && (!Delivers(Next(all)) ==> out == Err(TransportError(ErrNo(Next(all)))) && countAfter == count)
    && (Delivers(Next(all)) && count == max ==> out == Err(TooManyRedirects(max)) && countAfter == count)
    && (Delivers(Next(all)) && count != max ==> out.Ok? && countAfter == 0)
  }

  /**
   * The situation in which a whole redirect chain of `Curl` can be predicted:
   * `parse_url` parses every string and reports a scheme for it (more than
   * the chain needs), and the request's URL text is truthy.
   */
  ghost predicate CurlFollowing(request: Request)
    reads request
  {
    ParsesEverything(request.lib.parseUrl) && Truthy(request.rawUrl)
  }

  /** `addCookies($response->getCookies())` on the request: every cookie received is filed under its name. */
  method FileReplyCookies(request: Request, r: Response, ghost jar: Dict<Bag>, ghost x: Exchange)
    requires jar == request.Jar() && BuiltFrom(r, x)
    modifies request
    ensures BuiltFrom(r, x)
    ensures request.State() == old(request.State()).(cookies := request.cookies)
    ensures request.Jar() == PutAll(jar, Named(r.Jar()))
  {
    ghost var bags := r.Jar();
    var _ := request.AddCookies(Entries(AsEntries(r.GetCookies())));
    assert r.Jar() == bags;
    NamedEntries(r.cookies);
  }

  /** A delivered reply becomes a response, and with cookies on the request files its cookies. */
  method AbsorbReply(request: Request, x: Exchange, ghost jar: Dict<Bag>) returns (r: Response)
    requires x.Delivered? && jar == request.Jar()
    modifies request
    ensures fresh(r) && BuiltFrom(r, x)
    ensures request.State() == old(request.State()).(cookies := request.cookies)
    ensures request.Jar() == if request.cookiesEnabled then PutAll(jar, Named(r.Jar())) else jar
  {
    r := Build(x);
    if request.cookiesEnabled {
      FileReplyCookies(request, r, jar, x);
    }
  }

  class Curl {
    /** The cURL handle made by the constructor. */
    const handle: Handle
    /** Follow-ups made in the current chain; kept across calls to `send`. */
    var redirectCount: int

    /** `new Curl()`: a fresh handle returning the transfer as text with headers, and the counter at 0. */
    constructor(script: seq<Exchange>)
      ensures fresh(handle)
      ensures handle.options == map[ReturnTransfer := Number(1), Header := Number(1)]
      ensures handle.replies == script && handle.sent == []
      ensures redirectCount == 0
    {
      handle := new Handle(script);
      redirectCount := 0;
    }

    /** `setHeaders`: every header as `key: value`, in array order; with no header the option is not touched. */
    method SetHeaders(headers: Dict<string>)
      modifies handle
      ensures handle.options == WithHeaderLines(old(handle.options), headers)
      ensures handle.replies == old(handle.replies) && handle.sent == old(handle.sent)
    {
      if |headers| > 0 {
        var tmp: seq<string> := [];
        var i := 0;
        while i < |headers|
          invariant 0 <= i <= |headers|
          invariant |tmp| == i && forall j :: 0 <= j < i ==> tmp[j] == headers[j].0 + ": " + headers[j].1
        {
          tmp := tmp + [headers[i].0 + ": " + headers[i].1];
          i := i + 1;
        }
        assert tmp == HeaderLines(headers);
        handle.SetOpt(HttpHeader, Lines(tmp));
      }
    }

    /** `setCookies`: the text of every cookie, in jar order, joined with `"; "`; with no cookie the option is not touched. */
    method SetCookies(cookies: Dict<Cookie>, ghost jar: Dict<Bag>)
      requires jar == BagsIn(cookies)
      modifies handle
      ensures handle.options == WithAllCookies(old(handle.options), jar)
      ensures handle.replies == old(handle.replies) && handle.sent == old(handle.sent)
    {
      if |cookies| > 0 {
        var tmp := CookieTexts(cookies, Values(jar));
        if |tmp| > 0 {
          handle.SetOpt(Cookie, Text(Join(tmp, "; ")));
        }
      }
    }

    /**
     * `setPostFields`: for POST, PUT and DELETE only, the body goes to
     * `CURLOPT_POSTFIELDS`, URL-encoded when the Content-Type is truthy and
     * mentions "urlencoded" in any letter case.
     */
    method SetPostFields(payload: Payload, m: Method, contentType: Option<string>, lib: Library)
      requires payload.JsonText? ==> !UrlEncoded(contentType)
      modifies handle
      ensures handle.options == if CarriesBody(m) then old(handle.options)[PostFields := PostValue(payload, contentType, lib)]
                                else old(handle.options)
      ensures handle.replies == old(handle.replies) && handle.sent == old(handle.sent)
    {
      if m == POST || m == PUT || m == DELETE {
        if contentType.Some? && Truthy(contentType.value) && Contains(Lower(contentType.value), "urlencoded") {
          handle.SetOpt(PostFields, Text(lib.buildQuery(payload.fields)));
        } else {
          if contentType.Some? && Contains(Lower(contentType.value), "urlencoded") {
            UrlEncodedTruthy(contentType.value);
          }
          handle.SetOpt(PostFields, match payload case Fields(f) => Form(f) case JsonText(t) => Text(t));
        }
      }
    }

    /** `setMethod`: the option of each of the five methods. */
    method SetMethod(m: Method)
      modifies handle
      ensures handle.options == WithMethod(old(handle.options), m)
      ensures handle.replies == old(handle.replies) && handle.sent == old(handle.sent)
    {
      match m
      case GET => handle.SetOpt(HttpGet, Flag(true));
      case PUT => handle.SetOpt(CustomRequest, Text("PUT"));
      case POST => handle.SetOpt(Post, Flag(true));
      case HEAD => handle.SetOpt(NoBody, Flag(true));
      case DELETE => handle.SetOpt(CustomRequest, Text("DELETE"));
    }

    /**
     * The steps of `send` before `curl_exec`: the URL text, the JSON
     * Content-Type merged into the request's headers, then cookies, headers,
     * method and body handed to the handle.
     */
    method Prepare(request: Request, ghost jar: Dict<Bag>)
      requires jar == request.Jar()
      modifies handle, request
      ensures request.State() == old(request.State()).(headers := SentHeaders(old(request.headers), old(request.json)))
      ensures handle.options == CurlPrepared(old(handle.options), old(request.State()), jar, request.lib)
      ensures handle.replies == old(handle.replies) && handle.sent == old(handle.sent)
    {
      handle.SetOpt(Url, Text(request.GetUrl()));
      if request.json.Some? {
        var _ := request.AddHeaders(Given([("Content-Type", JsonType)]));
      }
      HandOver(request, jar, old(request.headers));
    }

    /** `setCookies`, `setHeaders`, `setMethod` and the post-field step of `send`, once the JSON Content-Type is merged in. */
    method HandOver(request: Request, ghost jar: Dict<Bag>, ghost h0: Dict<string>)
      requires jar == BagsIn(request.cookies) && request.headers == SentHeaders(h0, request.json)
      modifies handle
      ensures handle.options == WithBody(WithMethod(WithHeaderLines(WithAllCookies(old(handle.options), jar), request.headers),
                                                    request.httpMethod),
                                         request.httpMethod, h0, request.post, request.json, request.lib)
      ensures handle.replies == old(handle.replies) && handle.sent == old(handle.sent)
    {
      SetCookies(request.GetCookies(), jar);
      SetHeaders(request.GetHeaders());
      SetMethod(request.GetMethod());
      if |request.GetPostFields()| > 0 || JsonTruthy(request.json) {
        JsonNotUrlEncoded();
        SetPostFields(PayloadOf(request.post, request.json, request.lib), request.GetMethod(),
                      request.GetHeader(Some("Content-Type"), None).value, request.lib);
      }
    }

    /**
     * The exchange itself: the options are prepared, `curl_exec` runs, and the
     * Content-Type header of the request is dropped whatever happened.
     */
    method Exchange(request: Request, ghost jar: Dict<Bag>) returns (x: Exchange)
      requires jar == request.Jar()
      modifies handle, request
      ensures x == Next(old(handle.replies)) && handle.replies == Rest(old(handle.replies))
      ensures handle.sent == old(handle.sent) + [CurlPrepared(old(handle.options), old(request.State()), jar, request.lib)]
      ensures request.State() == old(request.State()).(headers := request.headers)
      ensures request.headers == Remove(SentHeaders(old(request.headers), old(request.json)), "Content-Type")
      ensures !HasKey(request.headers, "Content-Type")
      ensures request.Jar() == jar
    {
      Prepare(request, jar);
      x := handle.Exec();
      request.UnsetHeader("Content-Type");
      RemoveMeaning(SentHeaders(old(request.headers), old(request.json)), "Content-Type");
    }

    /**
     * One exchange of `send`: a failed one throws with its error number; a
     * delivered one becomes the response, whose cookies the request files
     * when its cookies are on. Either way the request's Content-Type header
     * is dropped, and nothing else of it but its cookies changes.
     */
    method Transmit(request: Request) returns (out: Result<Response>)
      modifies handle, request
      ensures handle.sent == old(handle.sent) + [CurlPrepared(old(handle.options), old(request.State()), old(request.Jar()), request.lib)]
      ensures handle.replies == Rest(old(handle.replies))
      ensures !Delivers(Next(old(handle.replies))) ==> out == Err(TransportError(ErrNo(Next(old(handle.replies)))))
      ensures Delivers(Next(old(handle.replies))) ==> out.Ok? && fresh(out.value) && BuiltFrom(out.value, Next(old(handle.replies)))
      ensures request.State() == old(request.State()).(headers := AfterSend(old(request.State())), cookies := request.cookies)
      ensures request.Jar() == AfterReply(old(request.Jar()), Next(old(handle.replies)), request.cookiesEnabled)
      ensures !HasKey(request.headers, "Content-Type")
    {
      ghost var jar, all := request.Jar(), handle.replies;
      var x := Exchange(request, jar);
      if !Delivers(x) {
        return Err(TransportError(ErrNo(x)));
      }
      var r := AbsorbReply(request, x, jar);
      out := Ok(r);
    }

    /**
     * What `send` of `Curl` past the URL test returns and leaves behind, for
     * a call that began with the request in state `before` and jar `jar`, the
     * executions `sent`, the script `all` and the counter `count`, with
     * redirects `enabled` up to `max`, and whose first execution used the
     * options `first`:
     *  - that execution comes right after the earlier ones;
     *  - no Content-Type header is left on the request;
     *  - a reply that is not followed ends the call after that one execution,
     *    as `CurlSentOnce` says, and a response returned is built from it;
     *  - when the chain can be predicted (`following`), `CurlChained` holds.
     */
    ghost predicate CurlSends(request: Request, before: RequestState, jar: Dict<Bag>, sent: seq<map<CurlOpt, OptValue>>,
                              first: map<CurlOpt, OptValue>, all: seq<Exchange>, enabled: bool, max: int, count: int,
                              following: bool, out: Result<Response>, from: Exchange)
      reads this, handle, request, set e | e in request.cookies :: e.1
      reads if out.Ok? then {out.value} else {}
      reads if out.Ok? then set c | c in out.value.cookies else {}
    {
      && |sent| < |handle.sent| && handle.sent[..|sent| + 1] == sent + [first]
      && !HasKey(request.headers, "Content-Type")
      && (!CurlFollowsUp(Next(all), count, max, enabled) ==>
            CurlSentOnce(all, before, jar, count, max, out, handle.replies, |handle.sent| - |sent|,
                         request.State(), request.Jar(), redirectCount)
            && (out.Ok? ==> BuiltFrom(out.value, Next(all))))
      && (following ==> CurlChained(request, Chain(all, count, max, enabled), sent, all, out, from))
    }

    /**
     * A predicted chain `ch` over the script `all`, after the executions
     * `sent`: the request's URL text stays truthy; the verdict, the counter,
     * the exchanges used and the script left are the chain's; and a response
     * returned is built from `from`, the last exchange the chain used.
     */
    ghost predicate CurlChained(request: Request, ch: (Verdict, int, nat), sent: seq<map<CurlOpt, OptValue>>,
                                all: seq<Exchange>, out: Result<Response>, from: Exchange)
      reads this, handle, request
      reads if out.Ok? then {out.value} else {}
      reads if out.Ok? then set c | c in out.value.cookies else {}
    {
      && CurlFollowing(request)
      && ChainEnds(ch, all, VerdictOf(out), redirectCount, handle.replies, |handle.sent| - |sent|, from)
      && (out.Ok? ==> BuiltFrom(out.value, from))
    }

    /**
     * `send($request, $redirectsEnabled, $maxRedirects)`: with a falsy URL
     * text, a new empty response and nothing else. Otherwise the exchange
     * `CurlSends` describes. The handle of the client and the handle of the
     * request are two different cURL handles.
     */
    method Send(request: Request, redirectsEnabled: bool := false, maxRedirects: int := 20)
      returns (out: Result<Response>, ghost from: Exchange)
      requires handle != request.handle
      modifies this, handle, request, request.handle
      decreases maxRedirects - redirectCount, 4
      ensures request.Config() == old(request.Config())
      ensures old(handle.sent) <= handle.sent
      ensures !HasKey(old(request.headers), "Content-Type") ==> !HasKey(request.headers, "Content-Type")
      ensures !Truthy(old(request.rawUrl)) ==>
                out.Ok? && fresh(out.value) && out.value.code == 0 && out.value.headers == [] && out.value.Jar() == []
                && request.State() == old(request.State()) && redirectCount == old(redirectCount)
                && handle.options == old(handle.options) && handle.replies == old(handle.replies) && handle.sent == old(handle.sent)
      ensures Truthy(old(request.rawUrl)) ==>
                CurlSends(request, old(request.State()), old(request.Jar()), old(handle.sent),
                          CurlPrepared(old(handle.options), old(request.State()), old(request.Jar()), request.lib),
                          old(handle.replies), redirectsEnabled, maxRedirects, old(redirectCount),
                          old(CurlFollowing(request)), out, from)
    {
      if !Truthy(request.GetUrl()) {
        var empty := DefaultResponse();
        return Ok(empty), Failed(0);
      }
      out, from := SendTo(request, redirectsEnabled, maxRedirects);
    }

    /** `send` past the URL test: one exchange, then `Conclude`. */
    method SendTo(request: Request, redirectsEnabled: bool, maxRedirects: int) returns (out: Result<Response>, ghost from: Exchange)
      requires handle != request.handle && Truthy(request.rawUrl)
      modifies this, handle, request, request.handle
      decreases maxRedirects - redirectCount, 3
      ensures request.Config() == old(request.Config())
      ensures CurlSends(request, old(request.State()), old(request.Jar()), old(handle.sent),
                        CurlPrepared(old(handle.options), old(request.State()), old(request.Jar()), request.lib),
                        old(handle.replies), redirectsEnabled, maxRedirects, old(redirectCount),
                        old(CurlFollowing(request)), out, from)
    {
      ghost var before, jar, sent, opts, all, following := request.State(), request.Jar(), handle.sent, handle.options, handle.replies, CurlFollowing(request);
      var t := Transmit(request);
      out, from := Conclude(request, t, redirectsEnabled, maxRedirects,
                            before, jar, sent, CurlPrepared(opts, before, jar, request.lib), all, following);
    }

    /**
     * The end of `send` once the exchange is over, for a call that began as
     * `CurlSends` describes and whose exchange gave `t`: a failure throws; a
     * 301, 302 or 303 is followed while redirects are enabled and the counter
     * is below the limit; otherwise `Settle` decides.
     */
    method Conclude(request: Request, t: Result<Response>, redirectsEnabled: bool, maxRedirects: int,
                    ghost before: RequestState, ghost jar: Dict<Bag>, ghost sent: seq<map<CurlOpt, OptValue>>,
                    ghost first: map<CurlOpt, OptValue>, ghost all: seq<Exchange>, ghost following: bool)
      returns (out: Result<Response>, ghost from: Exchange)
      requires handle != request.handle
      requires handle.sent == sent + [first] && handle.replies == Rest(all)
      requires request.Jar() == AfterReply(jar, Next(all), before.cookiesEnabled)
      requires request.State() == before.(headers := AfterSend(before), cookies := request.cookies)
      requires (following ==> CurlFollowing(request)) && !HasKey(request.headers, "Content-Type")
      requires !Delivers(Next(all)) ==> t == Err(TransportError(ErrNo(Next(all))))
      requires Delivers(Next(all)) ==> t.Ok? && BuiltFrom(t.value, Next(all))
      modifies this, handle, request, request.handle
      decreases maxRedirects - redirectCount, 2
      ensures request.Config() == old(request.Config())
      ensures CurlSends(request, before, jar, sent, first, all, redirectsEnabled, maxRedirects, old(redirectCount), following, out, from)
      ensures (Delivers(Next(all)) && !CurlFollowsUp(Next(all), old(redirectCount), maxRedirects, redirectsEnabled)
               && old(redirectCount) != maxRedirects) ==> out == t
    {
      if t.Err? {
        assert handle.sent[..|sent| + 1] == handle.sent;
        return t, Next(all);
      }
      var r := t.value;
      if redirectsEnabled && IsRedirect(r.GetCode()) && redirectCount < maxRedirects {
        out, from := FollowOn(request, r, maxRedirects, redirectsEnabled, before, jar, sent, first, all, following);
      } else {
        out, from := Settle(request, r, maxRedirects, redirectsEnabled, before, jar, sent, first, all, following);
      }
    }

    /** The redirect branch of `send`: `doFollow`, one step further along the chain. */
    method FollowOn(request: Request, r: Response, maxRedirects: int, ghost enabled: bool,
                    ghost before: RequestState, ghost jar: Dict<Bag>, ghost sent: seq<map<CurlOpt, OptValue>>,
                    ghost first: map<CurlOpt, OptValue>, ghost all: seq<Exchange>, ghost following: bool)
      returns (out: Result<Response>, ghost from: Exchange)
      requires handle != request.handle
      requires handle.sent == sent + [first] && handle.replies == Rest(all)
      requires (following ==> CurlFollowing(request)) && !HasKey(request.headers, "Content-Type")
      requires BuiltFrom(r, Next(all)) && CurlFollowsUp(Next(all), redirectCount, maxRedirects, enabled)
      modifies this, handle, request, request.handle
      decreases maxRedirects - redirectCount, 1
      ensures request.Config() == old(request.Config())
      ensures CurlSends(request, before, jar, sent, first, all, enabled, maxRedirects, old(redirectCount), following, out, from)
    {
      ghost var st := CurlFollowUp(request.State(), Get(r.headers, "Location"), request.lib);
      ghost var next := CurlPrepared(handle.options, st, request.Jar(), request.lib);
      ghost var jarNow, count := request.Jar(), redirectCount;
      out, from := DoFollow(request, r, maxRedirects);
      CurlFollowedSends(request, before, jar, sent, first, all, enabled, maxRedirects, count, following, out, from,
                        st, jarNow, next);
    }

    /**
     * A followed redirect puts one exchange in front of the `send` that
     * follows it: when that `send`, made with the counter one higher and
     * redirects on over the rest of the script, is the one `CurlSends`
     * describes, so is the whole call.
     */
    lemma CurlFollowedSends(request: Request, before: RequestState, jar: Dict<Bag>, sent: seq<map<CurlOpt, OptValue>>,
                            first: map<CurlOpt, OptValue>, all: seq<Exchange>, enabled: bool, max: int, count: int,
                            following: bool, out: Result<Response>, from: Exchange,
                            st: RequestState, jarNext: Dict<Bag>, next: map<CurlOpt, OptValue>)
      requires CurlFollowsUp(Next(all), count, max, enabled)
      requires sent + [first] <= handle.sent && !HasKey(request.headers, "Content-Type")
      requires following ==> CurlSends(request, st, jarNext, sent + [first], next, Rest(all), true, max, count + 1, true, out, from)
      ensures CurlSends(request, before, jar, sent, first, all, enabled, max, count, following, out, from)
    {
      PrefixExtended(sent, first, handle.sent);
      if following {
        EndsFollows(all, count, max, enabled, VerdictOf(out), redirectCount, handle.replies, |handle.sent| - |sent| - 1, from);
      }
    }

    /**
     * The other branch of `send` after a delivered reply: a counter at the
     * limit throws; any other counter is reset to 0 and the response returned.
     */
    method Settle(request: Request, r: Response, maxRedirects: int, ghost enabled: bool,
                  ghost before: RequestState, ghost jar: Dict<Bag>, ghost sent: seq<map<CurlOpt, OptValue>>,
                  ghost first: map<CurlOpt, OptValue>, ghost all: seq<Exchange>, ghost following: bool)
      returns (out: Result<Response>, ghost from: Exchange)
      requires handle.sent == sent + [first] && handle.replies == Rest(all)
      requires request.Jar() == AfterReply(jar, Next(all), before.cookiesEnabled)
      requires request.State() == before.(headers := AfterSend(before), cookies := request.cookies)
      requires (following ==> CurlFollowing(request)) && !HasKey(request.headers, "Content-Type")
      requires Delivers(Next(all)) && BuiltFrom(r, Next(all)) && !CurlFollowsUp(Next(all), redirectCount, maxRedirects, enabled)
      modifies this
      ensures CurlSends(request, before, jar, sent, first, all, enabled, maxRedirects, old(redirectCount), following, out, from)
      ensures old(redirectCount) != maxRedirects ==> out == Ok(r)
    {
      from := Next(all);
      if redirectCount == maxRedirects {
        out := Err(TooManyRedirects(maxRedirects));
      } else {
        redirectCount := 0;
        out := Ok(r);
      }
      CurlSettledSends(request, before, jar, sent, first, all, enabled, maxRedirects, old(redirectCount), following, out, from);
    }

    /** A delivered reply that is not followed ends the call after that one exchange, as `CurlSends` says. */
    lemma CurlSettledSends(request: Request, before: RequestState, jar: Dict<Bag>, sent: seq<map<CurlOpt, OptValue>>,
                           first: map<CurlOpt, OptValue>, all: seq<Exchange>, enabled: bool, max: int, count: int,
                           following: bool, out: Result<Response>, from: Exchange)
      requires handle.sent == sent + [first] && handle.replies == Rest(all)
      requires request.Jar() == AfterReply(jar, Next(all), before.cookiesEnabled)
      requires request.State() == before.(headers := AfterSend(before), cookies := request.cookies)
      requires (following ==> CurlFollowing(request)) && !HasKey(request.headers, "Content-Type")
      requires Delivers(Next(all)) && !CurlFollowsUp(Next(all), count, max, enabled) && from == Next(all)
      requires if count == max then out == Err(TooManyRedirects(max)) && redirectCount == count
               else out.Ok? && BuiltFrom(out.value, from) && redirectCount == 0
      ensures CurlSends(request, before, jar, sent, first, all, enabled, max, count, following, out, from)
    {
      PrefixExtended(sent, first, handle.sent);
      EndsStopping(all, count, max, enabled, VerdictOf(out), redirectCount, handle.replies, |handle.sent| - |sent|, from);
    }

    /**
     * `doFollow($request, $response, $maxRedirects)`: the follow-up request is
     * prepared and sent with redirects enabled. When the whole chain can be
     * predicted, that `send` is the one `CurlSends` describes from the
     * follow-up state, with the counter one higher: it begins with the
     * options `CurlPrepared` makes from that state.
     */
    method DoFollow(request: Request, r: Response, maxRedirects: int) returns (out: Result<Response>, ghost from: Exchange)
      requires redirectCount < maxRedirects && handle != request.handle
      modifies this, handle, request, request.handle
      decreases maxRedirects - redirectCount, 0
      ensures request.Config() == old(request.Config())
      ensures old(handle.sent) <= handle.sent
      ensures !HasKey(old(request.headers), "Content-Type") ==> !HasKey(request.headers, "Content-Type")
      ensures old(CurlFollowing(request)) ==>
                CurlSends(request, CurlFollowUp(old(request.State()), Get(old(r.headers), "Location"), request.lib), old(request.Jar()),
                          old(handle.sent),
                          CurlPrepared(old(handle.options), CurlFollowUp(old(request.State()), Get(old(r.headers), "Location"), request.lib),
                                       old(request.Jar()), request.lib),
                          old(handle.replies), true, maxRedirects, old(redirectCount) + 1, true, out, from)
    {
      ghost var before, location := request.State(), Get(r.headers, "Location");
      var o := PrepareFollow(request, r);
      if old(CurlFollowing(request)) {
        CurlFollowedUp(before, location, o, request.State(), request.lib);
      }
      if o.Thrown? {
        return Err(o.error), Failed(0);
      }
      out, from := Send(request, true, maxRedirects);
    }

    /**
     * The first half of `doFollow` of `Curl`: the request's method becomes
     * GET; a relative `Location` is put behind the origin of the request's
     * URL text parsed again (which throws when it does not parse); the result
     * is set as the new URL, and only when that succeeds is the new URL text
     * sent on as `Referer` and the redirect counted.
     */
    method PrepareFollow(request: Request, r: Response) returns (out: Outcome)
      requires handle != request.handle
      modifies this, request, request.handle
      ensures request.handle.options == old(request.handle.options)[HttpGet := Flag(true)]
      ensures request.handle.replies == old(request.handle.replies) && request.handle.sent == old(request.handle.sent)
      ensures CurlRelocated(old(request.State()).(httpMethod := GET),
                            ResolveAgainst(Get(old(r.headers), "Location"), old(request.rawUrl), request.lib),
                            out, request.State(), request.lib)
      ensures redirectCount == if out.Done? then old(redirectCount) + 1 else old(redirectCount)
      ensures request.Config() == old(request.Config())
      ensures Get(request.headers, "Content-Type") == Get(old(request.headers), "Content-Type")
      ensures request.cookies == old(request.cookies) && request.Jar() == old(request.Jar())
    {
      ghost var jar := request.Jar();
      ParseMethodName(GET);
      var _ := request.SetMethod(MethodName(GET));
      assert request.Jar() == jar;
      var resolved := ResolveAgainst(r.GetHeader(Some("Location"), None).value, request.GetUrl(), request.lib);
      if resolved.Err? {
        return Thrown(resolved.error);
      }
      out := request.Retarget(resolved.value);
      assert request.Jar() == jar;
      if out.Done? {
        redirectCount := redirectCount + 1;
      }
    }
  }

  /** The loop of `setCookies`: the text of every cookie, in jar order. */
  method CookieTexts(cookies: Dict<Cookie>, ghost bags: seq<Bag>) returns (tmp: seq<string>)
    requires |bags| == |cookies| && forall i :: 0 <= i < |cookies| ==> cookies[i].1.data == bags[i]
    ensures |tmp| == |cookies|
    ensures Join(tmp, "; ") == CookieLine(bags)
  {
    tmp := [];
    var i := 0;
    while i < |cookies|
      invariant 0 <= i <= |cookies|
      invariant |tmp| == i && forall j :: 0 <= j < i ==> tmp[j] == Render(bags[j])
    {
      var s := cookies[i].1.ToString();
      tmp := tmp + [s];
      i := i + 1;
    }
    RenderedLine(tmp, bags);
  }

  /** Texts that render the bags one by one join to the cookie line of the bags. */
  lemma RenderedLine(texts: seq<string>, bags: seq<Bag>)
    requires |texts| == |bags| && forall j :: 0 <= j < |bags| ==> texts[j] == Render(bags[j])
    ensures Join(texts, "; ") == CookieLine(bags)
  {
    assert texts == seq(|bags|, j requires 0 <= j < |bags| => Render(bags[j]));
  }

  /** Mentioning "urlencoded" makes a Content-Type truthy. */
  lemma UrlEncodedTruthy(contentType: string)
    requires Contains(Lower(contentType), "urlencoded")
    ensures Truthy(contentType)
  {
    var i := IndexOf(Lower(contentType), "urlencoded").value;
    assert |contentType| >= 10;
  }
}
