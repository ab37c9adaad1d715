/**
 * `Response`: built once from the status code, the header block and the body
 * of the last response received. The constructor files every header line into
 * the header array and turns every `Set-Cookie` line into a `Cookie`; the body
 * is decoded on first request and the decoded text kept.
 */
module Responses {
  import opened Wrappers
  import opened Strings
  import opened Dicts
  import opened Cookies
  import opened ResponseParsing

  /** What `getHeader` returns: one header (or the default), or the whole array. */
  datatype HeaderAnswer = One(value: Option<string>) | All(headers: Dict<string>)

  /** The bags of a list of cookies, in order. */
  ghost function BagsOf(cs: seq<Cookie>): (bs: seq<Bag>)
    reads set c | c in cs
    ensures |bs| == |cs|
    ensures forall i :: 0 <= i < |cs| ==> bs[i] == cs[i].data
  {
    if cs == [] then [] else BagsOf(cs[..|cs| - 1]) + [cs[|cs| - 1].data]
  }

  /** An empty header block carries no header and no cookie. */
  lemma NoHeaderText()
    ensures HeaderFields("") == []
  {
    var lines := Explode("", "\n");
    assert !Contains("", "\n");
    assert lines == [lines[0]];
    assert lines[0] == "";
    assert HeaderLine("") == None;
  }

  /** One more header line: it either updates the header array or may add a cookie. */
  lemma HeaderStep(ms: seq<(string, string)>, i: nat)
    requires i < |ms|
    ensures HeaderDict(ms[..i + 1]) ==
              if IsSetCookie(ms[i].0) then HeaderDict(ms[..i]) else Put(HeaderDict(ms[..i]), ms[i].0, Trim(ms[i].1))
    ensures CookieBags(ms[..i + 1]) ==
              if !IsSetCookie(ms[i].0) then CookieBags(ms[..i])
              else CookieBags(ms[..i]) + match ParseSetCookie(Trim(ms[i].1)) case Some(b) => [b] case None => []
  {
    assert ms[..i + 1][..i] == ms[..i] && ms[..i + 1][i] == ms[i];
  }

  lemma BagsOfSnoc(cs: seq<Cookie>, c: Cookie)
    ensures BagsOf(cs + [c]) == BagsOf(cs) + [c.data]
  {
    assert (cs + [c])[..|cs|] == cs;
  }

  /** The loop of `parseCookie`: a cookie named after the first token, then every token absorbed in order. */
  method FillCookie(ts: seq<(string, string)>) returns (c: Cookie)
    requires ts != []
    ensures fresh(c)
    ensures c.data == AbsorbAll(Fresh(ts[0].0, ""), ts)
  {
    c := new Cookie(ts[0].0);
    var i := 0;
    while i < |ts|
      modifies c
      invariant 0 <= i <= |ts|
      invariant c.data == AbsorbAll(Fresh(ts[0].0, ""), ts[..i])
    {
      assert ts[..i + 1][..i] == ts[..i] && ts[..i + 1][i] == ts[i];
      var name := c.Get("name");
      if LooseEquals(ts[i].0, name.GetOr("")) {
        c.Set("value", ts[i].1);
      } else {
        c.Set(ts[i].0, ts[i].1);
      }
      i := i + 1;
    }
    assert ts[..|ts|] == ts;
  }

  /** What `decodeBody` makes of a body under the Content-Type and Content-Encoding of a header array. */
  function Decoded(headers: Dict<string>, body: string, codecs: Codecs): (string, string) {
    DecodeBody(Get(headers, "Content-Type").GetOr(""), Get(headers, "Content-Encoding").GetOr(""), body, codecs)
  }

  class Response {
    var code: int
    /** The raw body; `decodeBody` replaces it with the gunzipped text. */
    var body: string
    /** The decoded body, or `""` while there is none (PHP's null compares equal to `''`). */
    var decodedBody: string
    var headers: Dict<string>
    var cookies: seq<Cookie>

    /** The attribute bags of the cookies received, in header order. */
    ghost function Jar(): seq<Bag>
      reads this, set c | c in cookies
    {
      BagsOf(cookies)
    }

    /**
     * `new Response($code, $headers, $body)`: every header line is matched in
     * order; `Set-Cookie` lines (in any letter case) become cookies, every other
     * match is stored under its untrimmed key with its value trimmed.
     */
    constructor(code: int := 0, headerText: string := "", body: string := "")
      ensures this.code == code && this.body == body && decodedBody == ""
      ensures headers == HeaderDict(HeaderFields(headerText))
      ensures Jar() == CookieBags(HeaderFields(headerText))
    {
      this.code := code;
      this.body := "";
      decodedBody := "";
      headers := [];
      cookies := [];
      new;
      FileHeaderLines(HeaderFields(headerText));
      this.body := body;
    }

    /** The loop of the constructor: every match, in order, filed into an empty header array and cookie list. */
    method FileHeaderLines(ms: seq<(string, string)>)
      requires headers == [] && cookies == []
      modifies this
      ensures code == old(code) && body == old(body) && decodedBody == old(decodedBody)
      ensures headers == HeaderDict(ms)
      ensures Jar() == CookieBags(ms)
    {
      var i := 0;
      while i < |ms|
        invariant 0 <= i <= |ms|
        invariant code == old(code) && body == old(body) && decodedBody == old(decodedBody)
        invariant headers == HeaderDict(ms[..i])
        invariant Jar() == CookieBags(ms[..i])
      {
        FileMatch(ms, i);
        i := i + 1;
      }
      assert ms[..|ms|] == ms;
    }

    /** One turn of that loop: filing match `i` extends both results by that match. */
    method FileMatch(ms: seq<(string, string)>, i: nat)
      requires i < |ms| && headers == HeaderDict(ms[..i]) && Jar() == CookieBags(ms[..i])
      modifies this
      ensures code == old(code) && body == old(body) && decodedBody == old(decodedBody)
      ensures headers == HeaderDict(ms[..i + 1]) && Jar() == CookieBags(ms[..i + 1])
    {
      HeaderStep(ms, i);
      FileHeaderLine(ms[i]);
    }

    /** One match of the constructor's loop: a `Set-Cookie` line goes to `parseCookie`, any other is stored. */
    method FileHeaderLine(m: (string, string))
      modifies this
      ensures code == old(code) && body == old(body) && decodedBody == old(decodedBody)
      ensures headers == if IsSetCookie(m.0) then old(headers) else Put(old(headers), m.0, Trim(m.1))
      ensures Jar() == if !IsSetCookie(m.0) then old(Jar())
                       else old(Jar()) + match ParseSetCookie(Trim(m.1)) case Some(b) => [b] case None => []
    {
      if IsSetCookie(m.0) {
        ParseCookie(Trim(m.1));
      } else {
        headers := Put(headers, m.0, Trim(m.1));
      }
    }

    /**
     * `parseCookie`: a value that yields at least one token adds one cookie,
     * named after the first token's key and filled token by token; a value
     * that yields none adds nothing.
     */
    method ParseCookie(value: string)
      modifies this
      ensures code == old(code) && body == old(body) && decodedBody == old(decodedBody)
      ensures headers == old(headers)
      ensures Jar() == old(Jar()) + match ParseSetCookie(value) case Some(b) => [b] case None => []
    {
      var ts := CookieTokens(value);
      if ts != [] {
        var c := FillCookie(ts);
        BagsOfSnoc(cookies, c);
        cookies := cookies + [c];
      }
    }

    /** `getCode`. */
    function GetCode(): int
      reads this
    {
      code
    }

    /** `getCookies`. */
    function GetCookies(): seq<Cookie>
      reads this
    {
      cookies
    }

    /** `getHeaders`. */
    function GetHeaders(): Dict<string>
      reads this
    {
      headers
    }

    /**
     * `getHeader($name, $default)`: a truthy name is looked up exactly (letter
     * case included) and gives the default when missing; a falsy name (null,
     * `""` or `"0"`) gives the whole array.
     */
    function GetHeader(name: Option<string>, default: Option<string>): (r: HeaderAnswer)
      reads this
      ensures name.None? || name.value == "" || name.value == "0" ==> r == All(headers)
      ensures name.Some? && name.value != "" && name.value != "0" ==>
                r.One? && (HasKey(headers, name.value) ==> r.value == Get(headers, name.value))
                && (!HasKey(headers, name.value) ==> r.value == default)
    {
      if name.Some? && name.value != "" && name.value != "0" then
        One(if HasKey(headers, name.value) then Get(headers, name.value) else default)
      else All(headers)
    }

    /** `getHeader($name, '')` with a non-empty name that is not `"0"`, as `decodeBody` calls it. */
    function HeaderOr(name: string, default: string): (r: string)
      reads this
      requires name != "" && name != "0"
      ensures GetHeader(Some(name), Some(default)) == One(Some(r))
    {
      Get(headers, name).GetOr(default)
    }

    /**
     * `getBody`: the decoded body when one is kept; otherwise `decodeBody` runs
     * on the stored body (gunzipping it again for a gzip Content-Encoding),
     * stores both results and returns the decoded text.
     */
    method GetBody(codecs: Codecs) returns (r: string)
      modifies this
      ensures old(decodedBody) != "" ==> r == old(decodedBody) && body == old(body)
      ensures old(decodedBody) == "" ==>
                (body, r) == DecodeBody(HeaderOr("Content-Type", ""), HeaderOr("Content-Encoding", ""), old(body), codecs)
      ensures decodedBody == r
      ensures code == old(code) && headers == old(headers) && cookies == old(cookies)
    {
      if decodedBody == "" {
        DecodeStored(codecs);
      }
      r := decodedBody;
    }

    /** The `decodeBody` step of `getBody`: both results are stored and nothing else changes. */
    method DecodeStored(codecs: Codecs)
      modifies this
      ensures (body, decodedBody) == Decoded(headers, old(body), codecs)
      ensures code == old(code) && headers == old(headers) && cookies == old(cookies)
    {
      var decoded := Decoded(headers, body, codecs);
      body, decodedBody := decoded.0, decoded.1;
    }

    /** `getRawBody`. */
    function GetRawBody(): string
      reads this
    {
      body
    }
  }

  /** `new Response()`: code 0, no header, no cookie, an empty body. */
  method DefaultResponse() returns (r: Response)
    ensures fresh(r)
    ensures r.GetCode() == 0 && r.GetHeaders() == [] && r.Jar() == [] && r.GetRawBody() == ""
  {
    NoHeaderText();
    r := new Response();
  }

  /** A non-empty decoded body is returned again by every later `getBody`, and the raw body stays. */
  method BodyIsCached(resp: Response, codecs: Codecs, later: Codecs) returns (first: string, second: string)
    modifies resp
    ensures first != "" ==> second == first
  {
    first := resp.GetBody(codecs);
    second := resp.GetBody(later);
  }
}
