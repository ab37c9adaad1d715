/**
 * The pure decisions `send` and `doFollow` make around each exchange, shared
 * by `Request` and `Curl`: the URL handed to the transport, how the raw
 * transport text is cut into header block and body, whether a response is
 * followed, where a `Location` leads, and the redirect counter across a whole
 * chain of exchanges.
 */
module Lifecycle {
  import opened Wrappers
  import opened Strings
  import opened Dicts
  import opened HttpTypes
  import opened Transport

  // ---------------------------------------------------------------- target URL

  /** `$url = rawUrl`, followed by `?` and the encoded parameters when there are any. */
  function Target(rawUrl: string, params: Dict<string>, lib: Library): (url: string)
    ensures params == [] ==> url == rawUrl
    ensures params != [] ==> url == rawUrl + "?" + lib.buildQuery(params)
  {
    if params != [] then rawUrl + "?" + lib.buildQuery(params) else rawUrl
  }

  /** `"$key: $value"` for every header, in array order, as handed to `CURLOPT_HTTPHEADER`. */
  function HeaderLines(headers: Dict<string>): (lines: seq<string>)
    ensures |lines| == |headers|
    ensures forall i :: 0 <= i < |headers| ==> lines[i] == headers[i].0 + ": " + headers[i].1
  {
    seq(|headers|, i requires 0 <= i < |headers| => headers[i].0 + ": " + headers[i].1)
  }

  /** A header line is its key, `: `, and its value: the key can be read back up to the first colon when it has none. */
  lemma HeaderLineParts(headers: Dict<string>, i: nat)
    requires i < |headers| && ':' !in headers[i].0
    ensures HeaderLines(headers)[i][..|headers[i].0|] == headers[i].0
    ensures HeaderLines(headers)[i][|headers[i].0|..] == ": " + headers[i].1
  {
  }

  /** What is sent as the request body: the field array, or text already encoded as JSON. */
  datatype Payload = Fields(fields: Dict<string>) | JsonText(text: string)

  /** `preg_match('/urlencoded/i', $contentType)` on a Content-Type that is set. */
  predicate UrlEncoded(contentType: Option<string>) {
    contentType.Some? && Contains(Lower(contentType.value), "urlencoded")
  }

  /**
   * The `CURLOPT_POSTFIELDS` value for a method that carries a body: a field
   * array is URL-encoded under a urlencoded Content-Type and otherwise passed
   * as it is (cURL sends it as multipart); JSON text is passed as it is.
   */
  function PostValue(payload: Payload, contentType: Option<string>, lib: Library): (v: OptValue)
    requires payload.JsonText? ==> !UrlEncoded(contentType)
    ensures payload.Fields? && UrlEncoded(contentType) ==> v == Text(lib.buildQuery(payload.fields))
    ensures payload.Fields? && !UrlEncoded(contentType) ==> v == Form(payload.fields)
    ensures payload.JsonText? ==> v == Text(payload.text)
  {
    match payload
    case Fields(f) => if UrlEncoded(contentType) then Text(lib.buildQuery(f)) else Form(f)
    case JsonText(t) => Text(t)
  }

  /** The Content-Type both clients merge into the headers whenever JSON is set. */
  const JsonType: string := "application/json"

  /** A JSON Content-Type never selects URL encoding. */
  lemma JsonNotUrlEncoded()
    ensures !UrlEncoded(Some(JsonType))
  {
    LowerFixed(JsonType);
    FirstCharMissing(JsonType, "urlencoded");
  }

  /**
   * The headers an exchange goes out with: `Content-Type: application/json`
   * merged in whenever JSON is set (an empty JSON array included), every other
   * header as it was.
   */
  function SentHeaders(headers: Dict<string>, json: Option<Dict<string>>): (h: Dict<string>)
    ensures json.Some? ==> Get(h, "Content-Type") == Some(JsonType)
    ensures json.None? ==> h == headers
    ensures forall k :: k != "Content-Type" ==> Get(h, k) == Get(headers, k)
    ensures Distinct(headers) ==> Distinct(h)
  {
    if json.Some? then
      PutAllDistinctIf(headers, [("Content-Type", JsonType)]);
      PutAllMeaning(headers, [("Content-Type", JsonType)]);
      PutAll(headers, [("Content-Type", JsonType)])
    else headers
  }

  lemma PutAllDistinctIf<V>(d: Dict<V>, e: Dict<V>)
    ensures Distinct(d) ==> Distinct(PutAll(d, e))
  {
    if Distinct(d) {
      PutAllDistinct(d, e);
    }
  }

  /** PHP truthiness of the JSON array: set and not empty. */
  predicate JsonTruthy(json: Option<Dict<string>>) {
    json.Some? && json.value != []
  }

  /** What `send` hands to the transport as the body: the encoded JSON when it is truthy, the post fields otherwise. */
  function PayloadOf(post: Dict<string>, json: Option<Dict<string>>, lib: Library): Payload {
    if JsonTruthy(json) then JsonText(lib.jsonEncode(json.value)) else Fields(post)
  }

  /**
   * The options after the post-field step of `send`: only when there are post
   * fields or truthy JSON, and only for a method that carries a body, is
   * `CURLOPT_POSTFIELDS` set; otherwise whatever an earlier exchange left there stays.
   */
  function WithBody(opts: map<CurlOpt, OptValue>, m: Method, headers: Dict<string>,
                    post: Dict<string>, json: Option<Dict<string>>, lib: Library): map<CurlOpt, OptValue>
  {
    if (post != [] || JsonTruthy(json)) && CarriesBody(m) then
      JsonNotUrlEncoded();
      opts[PostFields := PostValue(PayloadOf(post, json, lib), Get(SentHeaders(headers, json), "Content-Type"), lib)]
    else opts
  }

  /**
   * Truthy JSON is the body whatever post fields are set and whatever
   * Content-Type was set before, since the JSON Content-Type replaces it.
   */
  lemma JsonBodyWins(opts: map<CurlOpt, OptValue>, m: Method, headers: Dict<string>,
                     post: Dict<string>, json: Option<Dict<string>>, lib: Library)
    requires JsonTruthy(json) && CarriesBody(m)
    ensures WithBody(opts, m, headers, post, json, lib) == opts[PostFields := Text(lib.jsonEncode(json.value))]
  {
  }

  /**
   * Without JSON, post fields go out URL-encoded exactly when the Content-Type
   * header mentions `urlencoded` in any letter case, and as a field array otherwise.
   */
  lemma FieldsBody(opts: map<CurlOpt, OptValue>, m: Method, headers: Dict<string>,
                   post: Dict<string>, lib: Library)
    requires post != [] && CarriesBody(m)
    ensures UrlEncoded(Get(headers, "Content-Type")) ==>
              WithBody(opts, m, headers, post, None, lib) == opts[PostFields := Text(lib.buildQuery(post))]
    ensures !UrlEncoded(Get(headers, "Content-Type")) ==>
              WithBody(opts, m, headers, post, None, lib) == opts[PostFields := Form(post)]
  {
  }

  /** GET and HEAD never set a body, so the post option an earlier exchange set is left in the handle. */
  lemma NoBodyForGet(opts: map<CurlOpt, OptValue>, m: Method, headers: Dict<string>,
                     post: Dict<string>, json: Option<Dict<string>>, lib: Library)
    requires m == GET || m == HEAD
    ensures WithBody(opts, m, headers, post, json, lib) == opts
  {
  }

  /** Only `CURLOPT_POSTFIELDS` is touched by the post-field step. */
  lemma BodyKeeps(opts: map<CurlOpt, OptValue>, m: Method, headers: Dict<string>,
                  post: Dict<string>, json: Option<Dict<string>>, lib: Library, o: CurlOpt)
    requires o in opts && o != PostFields
    ensures o in WithBody(opts, m, headers, post, json, lib) && WithBody(opts, m, headers, post, json, lib)[o] == opts[o]
  {
  }

  /** The option a request method sets (the same `switch` in both clients). */
  function MethodOption(m: Method): (r: (CurlOpt, OptValue))
    ensures m == GET ==> r == (HttpGet, Flag(true))
    ensures m == POST ==> r == (Post, Flag(true))
    ensures m == HEAD ==> r == (NoBody, Flag(true))
    ensures m == PUT || m == DELETE ==> r == (CustomRequest, Text(MethodName(m)))
  {
    match m
    case GET => (HttpGet, Flag(true))
    case PUT => (CustomRequest, Text("PUT"))
    case POST => (Post, Flag(true))
    case HEAD => (NoBody, Flag(true))
    case DELETE => (CustomRequest, Text("DELETE"))
  }

  // ---------------------------------------------------------------- raw response

  /** The status line that starts every response after the first. */
  const NextResponse: string := "\r\n\r\nHTTP/"
  /** The blank line between a header block and its body. */
  const BlankLine: string := "\r\n\r\n"

  /**
   * The header block and body of the last response in the transport text: the
   * text after the last `\r\n\r\nHTTP/` (given back its `HTTP/`), cut at its
   * first blank line. Without a blank line the body is PHP's null, which every
   * use treats as the empty string.
   */
  function SplitRaw(raw: string): (r: (string, string))
  {
    var parts := Explode(raw, NextResponse);
    var last := (if |parts| > 1 then "HTTP/" else "") + parts[|parts| - 1];
    var (head, body) := SplitOnce(last, BlankLine);
    (head, body.GetOr(""))
  }

  lemma {:induction false} JoinSnoc(parts: seq<string>, sep: string)
    requires |parts| > 1
    ensures Join(parts, sep) == Join(parts[..|parts| - 1], sep) + sep + parts[|parts| - 1]
    decreases |parts|
  {
    if |parts| > 2 {
      JoinSnoc(parts[1..], sep);
      assert parts[1..][..|parts[1..]| - 1] == parts[..|parts| - 1][1..];
    } else {
      assert parts[..1] == [parts[0]];
    }
  }

  /** A transport text without a second status line is cut at its first blank line. */
  lemma SplitSingle(raw: string)
    requires !Contains(raw, NextResponse)
    ensures SplitRaw(raw).0 == SplitOnce(raw, BlankLine).0
    ensures SplitRaw(raw).1 == SplitOnce(raw, BlankLine).1.GetOr("")
  {
    var parts := Explode(raw, NextResponse);
    assert |parts| == 1;
    assert Join(parts, NextResponse) == parts[0];
    assert "" + parts[0] == raw;
  }

  /**
   * With interim responses (`100 Continue`) in front, only the last response
   * counts: the transport text is some prefix, a `\r\n\r\nHTTP/`, and a tail
   * holding no further one, and the header block and body are those of
   * `HTTP/` followed by that tail.
   */
  lemma SplitLast(raw: string)
    requires Contains(raw, NextResponse)
    ensures exists pre, tail ::
              raw == pre + NextResponse + tail && !Contains(tail, NextResponse)
              && SplitRaw(raw) == (SplitOnce("HTTP/" + tail, BlankLine).0, SplitOnce("HTTP/" + tail, BlankLine).1.GetOr(""))
  {
    var parts := Explode(raw, NextResponse);
    JoinSnoc(parts, NextResponse);
    var pre := Join(parts[..|parts| - 1], NextResponse);
    var tail := parts[|parts| - 1];
    assert raw == pre + NextResponse + tail;
    assert !Contains(tail, NextResponse);
    var (head, body) := SplitOnce("HTTP/" + tail, BlankLine);
    assert SplitRaw(raw) == (head, body.GetOr(""));
  }

  /** When a blank line is present, header block, blank line and body make up the last response again. */
  lemma SplitRejoins(raw: string)
    requires !Contains(raw, NextResponse) && Contains(raw, BlankLine)
    ensures SplitRaw(raw).0 + BlankLine + SplitRaw(raw).1 == raw
    ensures !Contains(SplitRaw(raw).0, BlankLine)
  {
    SplitSingle(raw);
  }

  // ---------------------------------------------------------------- following

  /** The codes `send` follows: 301, 302 and 303. */
  predicate IsRedirect(code: int) {
    code == 301 || code == 302 || code == 303
  }

  /**
   * `strpos($location, '/') == 0`: `strpos` gives `false` when there is no `/`
   * (and for a missing header), and `false == 0` holds, so a location without
   * any `/` counts as relative just like one starting with `/`.
   */
  predicate IsRelative(location: Option<string>) {
    location.None? || IndexOf(location.value, "/").None? || IndexOf(location.value, "/") == Some(0)
  }

  lemma IsRelativeMeaning(location: string)
    ensures IsRelative(Some(location)) <==> location == [] || location[0] == '/' || '/' !in location
  {
    var r := IndexOf(location, "/");
    if location != [] && location[0] == '/' {
      assert location[..1] == "/";
      assert OccursAt(location, "/", 0);
    }
    if r.Some? {
      assert location[r.value..r.value + 1] == "/";
      assert location[r.value] == '/';
    } else {
      forall j | 0 <= j < |location|
        ensures location[j] != '/'
      {
        if location[j] == '/' {
          assert location[j..j + 1] == "/";
          assert OccursAt(location, "/", j);
        }
      }
    }
  }

  /** `scheme://`, `user:pass@` (only when both are present), host and `:port`, each only when present. */
  function Origin(u: UrlParts): (s: string)
    ensures u.scheme.Some? ==> |s| >= |u.scheme.value| + 3 && s[..|u.scheme.value| + 3] == u.scheme.value + "://"
  {
    (if u.scheme.Some? then u.scheme.value + "://" else "")
    + (if u.user.Some? && u.pass.Some? then u.user.value + ":" + u.pass.value + "@" else "")
    + (if u.host.Some? then u.host.value else "")
    + (if u.port.Some? then ":" + u.port.value else "")
  }

  /**
   * Where `doFollow` of `Request` goes: a relative `Location` (a missing one
   * reads as the empty string) is put behind the origin of the current URL when
   * that URL is truthy; any other location is used as it is.
   */
  function Resolve(location: Option<string>, url: Option<UrlParts>): (r: Option<string>)
    ensures IsRelative(location) && UrlTruthy(url) ==> r == Some(Origin(url.value) + location.GetOr(""))
    ensures !(IsRelative(location) && UrlTruthy(url)) ==> r == location
  {
    if IsRelative(location) && UrlTruthy(url) then Some(Origin(url.value) + location.GetOr("")) else location
  }

  /** `https://a.com/p/q` with `Location: /r` leads to `https://a.com/r`. */
  lemma ResolveExample(url: UrlParts)
    requires url == UrlParts(Some("https"), Some("a.com"), None, None, None, Some("/p/q"), None, None)
    ensures Resolve(Some("/r"), Some(url)) == Some("https://a.com/r")
  {
    IsRelativeMeaning("/r");
    assert IsRelative(Some("/r"));
    assert UrlTruthy(Some(url));
    assert Origin(url) == "https" + "://" + "" + "a.com" + "";
    assert "https" + "://" + "" + "a.com" + "" + "/r" == "https://a.com/r";
  }

  /** An absolute location, whose first `/` comes later, is left alone. */
  lemma AbsoluteKept(location: string, url: Option<UrlParts>)
    requires location != [] && location[0] != '/' && '/' in location
    ensures Resolve(Some(location), url) == Some(location)
  {
    IsRelativeMeaning(location);
  }

  /**
   * Where `doFollow` of `Curl` goes: as `Resolve`, but the origin comes from
   * parsing the request's current URL text, and that text must parse.
   */
  function ResolveAgainst(location: Option<string>, rawUrl: string, lib: Library): (r: Result<Option<string>>)
    ensures r.Err? <==> IsRelative(location) && rawUrl != "" && !UrlTruthy(lib.parseUrl(rawUrl))
    ensures r.Err? ==> r.error == InvalidArgument("Invalid URL, got: " + rawUrl)
    ensures r.Ok? ==> r.value == Resolve(location, if rawUrl != "" then lib.parseUrl(rawUrl) else None)
  {
    if IsRelative(location) && rawUrl != "" then
      var parsed := lib.parseUrl(rawUrl);
      if !UrlTruthy(parsed) then Err(InvalidArgument("Invalid URL, got: " + rawUrl))
      else Ok(Some(Origin(parsed.value) + location.GetOr("")))
    else Ok(location)
  }

  /** Against a URL with a scheme, every location leads to a URL text that is truthy. */
  lemma ResolvedTruthy(location: Option<string>, url: Option<UrlParts>)
    requires UrlTruthy(url) && url.value.scheme.Some?
    ensures Resolve(location, url).Some? && Truthy(Resolve(location, url).value)
  {
    if !IsRelative(location) {
      var s := location.value;
      IsRelativeMeaning(s);
      assert s[0] != '/' && '/' in s;
      assert |s| >= 2;
    }
  }

  // ---------------------------------------------------------------- the chain

  /** How a whole `send` ends: with the code of the response returned, or with an exception. */
  datatype Verdict = Answered(code: int) | Threw(error: Error)

  /**
   * The redirect state machine over the scripted exchanges, starting with the
   * counter at `count`: the verdict, the counter afterwards, and the number of
   * exchanges used. A failed exchange throws at once; a redirect is followed
   * while following is on and the counter is below `max`, adding one to it;
   * otherwise the chain ends, throwing when the counter equals `max` (and then
   * leaving it there) and resetting it to 0 when it does not.
   */
  function Chain(replies: seq<Exchange>, count: int, max: int, follow: bool): (r: (Verdict, int, nat))
    ensures 1 <= r.2
    decreases |replies|
  {
    var x := Next(replies);
    if !Delivers(x) then (Threw(TransportError(ErrNo(x))), count, 1)
    else if follow && IsRedirect(x.code) && count < max then
      var (v, c, used) := Chain(Rest(replies), count + 1, max, follow);
      (v, c, used + 1)
    else if count == max then (Threw(TooManyRedirects(max)), count, 1)
    else (Answered(x.code), 0, 1)
  }

  /** The script after `n` exchanges. */
  function Drop(replies: seq<Exchange>, n: nat): (r: seq<Exchange>)
    ensures n <= |replies| ==> r == replies[n..]
    ensures n > |replies| ==> r == []
  {
    if n <= |replies| then replies[n..] else []
  }

  /**
   * A followed redirect is one exchange in front of the chain that continues
   * from the rest: the verdict and the counter are that chain's, one more
   * exchange is used, what is left of the script is the same, and the last
   * exchange used is the same one.
   */
  lemma ChainFollows(replies: seq<Exchange>, count: int, max: int, follow: bool)
    requires Delivers(Next(replies)) && follow && IsRedirect(Next(replies).code) && count < max
    ensures var c := Chain(Rest(replies), count + 1, max, follow);
            var ch := Chain(replies, count, max, follow);
            && ch == (c.0, c.1, c.2 + 1)
            && Drop(Rest(replies), c.2) == Drop(replies, ch.2)
            && (c.2 <= |Rest(replies)| ==> ch.2 <= |replies| && Rest(replies)[c.2 - 1] == replies[ch.2 - 1])
  {
    var c := Chain(Rest(replies), count + 1, max, follow);
    DropRest(replies, c.2);
  }

  /**
   * A chain whose run over `replies` is `ch` ended with verdict `v` and
   * counter `count`, used `used` exchanges and left `left` of the script;
   * when it answered, `from` was the last exchange it used.
   */
  predicate ChainEnds(ch: (Verdict, int, nat), replies: seq<Exchange>, v: Verdict, count: int,
                      left: seq<Exchange>, used: int, from: Exchange)
  {
    && v == ch.0 && count == ch.1 && left == Drop(replies, ch.2) && used == ch.2
    && (ch.0.Answered? ==> 1 <= ch.2 <= |replies| && from == replies[ch.2 - 1])
  }

  /** How a chain that follows its first reply ends is how the chain from the rest ends, one exchange later. */
  lemma EndsFollows(replies: seq<Exchange>, count: int, max: int, follow: bool,
                    v: Verdict, c: int, left: seq<Exchange>, used: int, from: Exchange)
    requires Delivers(Next(replies)) && follow && IsRedirect(Next(replies).code) && count < max
    requires ChainEnds(Chain(Rest(replies), count + 1, max, follow), Rest(replies), v, c, left, used, from)
    ensures ChainEnds(Chain(replies, count, max, follow), replies, v, c, left, used + 1, from)
  {
    ChainFollows(replies, count, max, follow);
  }

  /** A delivered reply that is not followed ends the chain after one exchange. */
  lemma ChainStops(replies: seq<Exchange>, count: int, max: int, follow: bool)
    requires Delivers(Next(replies)) && !(follow && IsRedirect(Next(replies).code) && count < max)
    ensures Chain(replies, count, max, follow)
            == if count == max then (Threw(TooManyRedirects(max)), count, 1) else (Answered(Next(replies).code), 0, 1)
  {
  }

  /**
   * A delivered reply that is not followed ends the chain after that one
   * exchange, with nothing used but it: at the limit with an exception and
   * the counter kept, otherwise with its code and the counter reset.
   */
  lemma EndsStopping(replies: seq<Exchange>, count: int, max: int, follow: bool,
                     v: Verdict, c: int, left: seq<Exchange>, used: int, from: Exchange)
    requires Delivers(Next(replies)) && !(follow && IsRedirect(Next(replies).code) && count < max)
    requires from == Next(replies) && left == Rest(replies) && used == 1
    requires count == max ==> v == Threw(TooManyRedirects(max)) && c == count
    requires count != max ==> v == Answered(from.code) && c == 0
    ensures ChainEnds(Chain(replies, count, max, follow), replies, v, c, left, used, from)
  {
    ChainStops(replies, count, max, follow);
  }

  lemma DropRest(replies: seq<Exchange>, n: nat)
    ensures Drop(Rest(replies), n) == Drop(replies, n + 1)
  {
  }

  /** Every exchange is a delivered redirect. */
  predicate AllRedirects(replies: seq<Exchange>) {
    forall i :: 0 <= i < |replies| ==> Delivers(replies[i]) && IsRedirect(replies[i].code)
  }

  /**
   * A server that always redirects makes the chain follow until the counter
   * reaches `max`, and then throw, after `max - count + 1` exchanges, leaving
   * the counter at `max`.
   */
  lemma {:induction false} EndlessRedirects(replies: seq<Exchange>, count: int, max: int)
    requires AllRedirects(replies) && 0 <= count <= max && |replies| > max - count
    ensures Chain(replies, count, max, true) == (Threw(TooManyRedirects(max)), max, max - count + 1)
    decreases max - count
  {
    if count < max {
      assert AllRedirects(Rest(replies)) by {
        forall i | 0 <= i < |Rest(replies)|
          ensures Delivers(Rest(replies)[i]) && IsRedirect(Rest(replies)[i].code)
        {
          assert Rest(replies)[i] == replies[i + 1];
        }
      }
      EndlessRedirects(Rest(replies), count + 1, max);
    }
  }

  /** With a limit of 3 and a server that always answers 302, three follow-ups are made and then the limit throws. */
  lemma ThreeRedirects(replies: seq<Exchange>, raw: string)
    requires raw != "" && raw != "0"
    requires |replies| >= 4 && forall i :: 0 <= i < |replies| ==> replies[i] == Delivered(302, raw)
    ensures Chain(replies, 0, 3, true) == (Threw(TooManyRedirects(3)), 3, 4)
  {
    EndlessRedirects(replies, 0, 3);
  }

  /**
   * The counter is reset only when a response is returned; an exception leaves
   * it where the chain had taken it, one step per follow-up.
   */
  lemma {:induction false} ChainCounter(replies: seq<Exchange>, count: int, max: int, follow: bool)
    ensures Chain(replies, count, max, follow).0.Answered? ==> Chain(replies, count, max, follow).1 == 0
    ensures Chain(replies, count, max, follow).0.Threw? ==>
              Chain(replies, count, max, follow).1 == count + Chain(replies, count, max, follow).2 - 1
    decreases |replies|
  {
    var x := Next(replies);
    if Delivers(x) && follow && IsRedirect(x.code) && count < max {
      ChainCounter(Rest(replies), count + 1, max, follow);
    }
  }

  /** No chain uses more exchanges than one plus the follow-ups still allowed, and without following it uses exactly one. */
  lemma {:induction false} ChainLength(replies: seq<Exchange>, count: int, max: int, follow: bool)
    ensures Chain(replies, count, max, follow).2 <= if count < max then max - count + 1 else 1
    ensures !follow ==> Chain(replies, count, max, follow).2 == 1
    decreases |replies|
  {
    var x := Next(replies);
    if Delivers(x) && follow && IsRedirect(x.code) && count < max {
      ChainLength(Rest(replies), count + 1, max, follow);
    }
  }

  /** A chain that ends in a response ends with the reply of its last exchange, which was delivered. */
  lemma {:induction false} ChainAnswered(replies: seq<Exchange>, count: int, max: int, follow: bool)
    ensures var ch := Chain(replies, count, max, follow);
            ch.0.Answered? ==>
              ch.2 <= |replies| && Delivers(replies[ch.2 - 1]) && ch.0.code == replies[ch.2 - 1].code
    decreases |replies|
  {
    var x := Next(replies);
    if Delivers(x) && follow && IsRedirect(x.code) && count < max {
      ChainAnswered(Rest(replies), count + 1, max, follow);
      var ch := Chain(Rest(replies), count + 1, max, follow);
      if ch.0.Answered? {
        assert Rest(replies)[ch.2 - 1] == replies[ch.2];
      }
    }
  }

  /**
   * The limit check sits in the branch that does not follow, so when the
   * counter already equals the limit (say after `enableRedirects(0)`) even a
   * `200 OK` ends in the exception.
   */
  lemma LimitReachedThrows(replies: seq<Exchange>, max: int, follow: bool)
    requires replies != [] && Delivers(replies[0])
    ensures Chain(replies, max, max, follow) == (Threw(TooManyRedirects(max)), max, 1)
  {
  }

  /** Without following, one delivered exchange below the limit yields its code and resets the counter. */
  lemma SingleExchange(replies: seq<Exchange>, count: int, max: int)
    requires replies != [] && Delivers(replies[0]) && count != max
    ensures Chain(replies, count, max, false) == (Answered(replies[0].code), 0, 1)
  {
  }
}
