# http-helper in Dafny

A model of the request/response core of the PHP HTTP client
novotnyj/http-helper, with proofs about it. The model covers four classes:

- **`Cookie`** is an attribute bag. It always holds `name` and `value` and
  serialises as `name=value`.
- **`Response`** is built from a status code, a header block and a body. It
  files every `key:value` header line into an ordered header array and turns
  every `Set-Cookie` line into a `Cookie`. It decodes the body on first
  request along a charset fallback chain, and keeps the decoded text.
- **`Request`** is the stateful client. Its setters validate their arguments.
  It filters the cookies it sends by domain, path and `Secure`. It prepares
  the cURL options and splits the raw reply at its last `HTTP/` preamble.
  It follows 301/302/303 redirects up to a limit, rewriting the method,
  URL and `Referer` as it goes.
- **`Curl`** is the refactored transport. It owns a cURL handle and a
  redirect counter, and sends a `Request` handed to it. Unlike `Request`, it
  sends every cookie unfiltered and ignores the URL parameters.

The cURL handle is a class (`Transport.Handle`) with three fields:

- the options currently set;
- the script of replies that `curl_exec` will return, one per call;
- the log of option maps in force at each execution.

So the contracts about sending state which options went over the wire:
those of the first execution of every `send`, and through `doFollow` those of
the first execution of each follow-up, made from the follow-up request.
`parse_url`, `http_build_query` and `json_encode` are fields of a `Library`
value. `gzdecode`, the `<meta>` and `<?xml` charset captures,
`mb_detect_encoding` and `iconv` are fields of a `Codecs` value. The model
says nothing about them beyond what the code itself relies on.

PHP's ordered string-keyed arrays are sequences of key/value pairs
(`Dicts`):

- assigning an existing key keeps its place;
- a new key goes to the end;
- `array_merge` is `PutAll`, where the later value wins.

PHP truthiness and loose comparison are written out where the code depends
on them:

- `"0"` is falsy;
- a Set-Cookie attribute key is compared with the cookie's name by PHP 8's
  `==` between strings (`Strings.LooseEquals`), so numeric texts of the same
  value, such as `1` and `01`, are equal;
- `strpos(...) == 0` also holds for `false`;
- a raw reply of `""` or `"0"` counts as a failure.

The whole redirect chain is specified by one pure function,
`Lifecycle.Chain`. Given the scripted replies, the counter, the limit and
whether redirects are enabled, it gives three things:

- the verdict: the final response code, or the exception;
- the final counter;
- the number of exchanges used.

`Request.Send` and `Curl.Send` are both proved equal to it, and a chain
that answers returns the response built from the last reply it used. This holds
whenever the `parse_url` of the `Library` parses every string and reports a
scheme for it (`ParsesEverything`), and a URL has been set: the predicates
`Following` and `CurlFollowing`. That condition is stronger than needed: only
the URLs the chain actually builds must parse.

Where the two clients differ, the model follows the code:

- `Request.doFollow` sends the NEW URL as `Referer`, because it reads
  `rawUrl` after `setUrl`.
- `Curl.doFollow` parses the request's URL text again, and throws when
  that text does not parse.
- A missing `Location` header is treated as relative. `strpos(null, '/')`
  is `false`, and `false == 0` holds.

`Curl` calls `$request->getJSON()` and `$request->isCookiesEnabled()`, which
the `Request` class in src/Request.php does not define. As written, the first
of these calls stops `Curl::send` with a fatal error right after `CURLOPT_URL`
is set. The model reads the `json` and `cookiesEnabled` fields in their place.

## Model

| member | source | states |
|---|---|---|
| Cookies.Cookie.constructor | src/Cookie.php:17-20 | the bag holds exactly `name` and `value`, both defaulting to `""` |
| Cookies.Fresh | src/Cookie.php:17-20 | a new bag maps `name` and `value` to the given texts and has no other key |
| Cookies.Cookie.Get | src/Cookie.php:27-32 | a present key gives its value; a missing key gives null (absent) and does not fail |
| Cookies.Lookup | src/Cookie.php:27-32 | the pure form of `__get`: present iff the key is in the bag, with its value |
| Cookies.Cookie.Set | src/Cookie.php:39-41 | the bag is updated at that key only; a bag holding `name` and `value` still does |
| Cookies.SetThenGet | src/Cookie.php:27-41 | a set followed by a get returns the value just set, and every other key reads as before |
| Cookies.Cookie.IsSet | src/Cookie.php:47-49 | true exactly when the key is present, whatever its value (the empty string included) |
| Cookies.Cookie.ToString | src/Cookie.php:55-57 | the text is `name + "=" + value` of the bag |
| Cookies.Render | src/Cookie.php:55-57 | the serialised form is `name=value`, and its length is that of the two values plus one |
| Cookies.RenderIgnoresOtherAttributes | src/Cookie.php:55-57 | bags that agree on `name` and `value` serialise alike: no other attribute ever shows |
| Cookies.RenderAfterSet | src/Cookie.php:18-19 | setting `value` or `name` through `__set` changes the serialised form, since both live in the same bag |
| Transport.Handle.constructor | src/Curl.php:18-24 | a new handle holds `CURLOPT_RETURNTRANSFER` and `CURLOPT_HEADER` set to 1, with the given reply script and nothing sent |
| Transport.Handle.SetOpt | src/Request.php:536 | `curl_setopt` sets one option and leaves the others, the script and the log alone |
| Transport.Handle.Exec | src/Request.php:551 | `curl_exec` returns the next scripted reply (a failure when none is left), consumes it and logs the options in force |
| Transport.Next | src/Request.php:551 | the reply `curl_exec` returns: the first scripted one, or a failure with error number 0 when the script is empty |
| Transport.Rest | src/Request.php:551 | what is left of the script after one execution |
| HttpTypes.ParseMethod | src/Request.php:120-139 | only the five method names are recognised, compared case-sensitively; anything else is rejected |
| HttpTypes.ParseMethodName | src/Request.php:14-22 | each method's own name parses back to that method |
| Strings.Trim | src/Response.php:46-50 | `trim` cuts exactly the maximal runs of trim characters at both ends: the result is the slice of the input between them, and it is empty or starts and ends with a character that is not a trim character |
| Strings.TrimIdempotent | src/Response.php:112 | trimming twice is trimming once |
| Strings.Explode | src/Request.php:564 | `explode` pieces join back to the input, none contains the separator, and there is more than one piece iff the separator occurs; for a separator that cannot overlap itself, such as the ones the client uses, that fixes the pieces |
| Strings.SplitOnce | src/Request.php:566 | `explode($sep, $s, 2)`: the head has no separator; with a separator, head + separator + tail is the input; without one the tail is null; the cut is at the first occurrence |
| Strings.IndexOf | src/Request.php:497 | `strpos` finds the first occurrence, or none |
| Strings.NoDigitNotNumeric | src/Response.php:124 | a string without any digit is never a PHP numeric string |
| Strings.LooseEquals | src/Response.php:124 | no contract; defines PHP 8 `==` between two strings: identical, or both numeric strings of the same exact value |
| Strings.LooseEqualsPlain | src/Response.php:124 | when one side holds no digit, PHP 8's `==` between strings is plain equality, in both directions |
| Strings.LeadingZeroEquals | src/Response.php:124 | `"01" == "1"` holds in PHP 8 though the texts differ: both are numeric strings of value one |
| Strings.PlainDigits | src/Response.php:124 | a non-empty string of digits is numeric, with its decimal value and exponent 0 |
| Dicts.Get | src/Response.php:167 | `array_key_exists` then read: absent exactly when the key is missing |
| Dicts.PutMeaning | src/Response.php:50 | `$d[$k] = $v`: the key maps to `v`, other keys keep their values, an existing key keeps its place and a new one goes last |
| Dicts.PutAllMeaning | src/Request.php:328 | `array_merge`: a key of the second array takes its last value there, other keys keep theirs, and the first array's keys stay in front |
| Dicts.PutAllDistinct | src/Request.php:328 | merging never duplicates a key |
| Dicts.RemoveMeaning | src/Request.php:335-339 | `unset`: the key is gone, others keep their values, and removing a missing key changes nothing |
| Dicts.Last | src/Request.php:328 | the value a merge leaves for a key is that of its last entry, present iff the key occurs |
| ResponseParsing.HeaderLine | src/Response.php:42 | a line matches iff its first `:` is at index 1 or later with at least one character after it; the key is the untrimmed text before it |
| ResponseParsing.LineMatches | src/Response.php:42 | every match has a non-empty key without `:` and a non-empty value |
| ResponseParsing.HeaderFields | src/Response.php:42 | no contract; defines the `key`/`value` captures of `preg_match_all` over the header block, line by line in order |
| ResponseParsing.HeaderDict | src/Response.php:43-51 | no contract; defines the header array: each capture in order is assigned trimmed, except Set-Cookie keys in any letter case; `HeaderDictLookup` and `HeaderDictDistinct` state its properties |
| ResponseParsing.HeaderDictLookup | src/Response.php:42-51 | for a repeated header the last occurrence wins, trimmed; no key whose lower-case form is `set-cookie` is ever stored |
| ResponseParsing.HeaderDictDistinct | src/Response.php:50 | the header array never holds a key twice |
| ResponseParsing.CookieTokens | src/Response.php:121 | every token of the Set-Cookie tokenizer has a non-empty key without `=` and a value without `;` |
| ResponseParsing.NextToken | src/Response.php:121 | one token: a non-empty key without `=`, a value without `;`, and less text left than given |
| ResponseParsing.NextTokenOfPair | src/Response.php:121 | the token takes maximal runs: on any text `k=v` followed by nothing or `;`, with `k` free of `=` and `v` free of `;`, it is `(k, v)` and what follows the `;` is left without its leading whitespace |
| ResponseParsing.NextTokenWithoutEquals | src/Response.php:121 | a text without `=` is one token: all of it is the key, the value is empty and nothing is left |
| ResponseParsing.CookieTokensEmpty | src/Response.php:121 | a value yields no token exactly when it is made of `=` only (or is empty) |
| ResponseParsing.Absorb | src/Response.php:123-130 | a token whose key equals the current name by PHP's `==` sets `value`, any other token sets the attribute of its key; that attribute takes the token's value and no other attribute changes |
| ResponseParsing.AbsorbAll | src/Response.php:123-130 | absorbing tokens keeps `name` and `value` in the bag |
| ResponseParsing.LastWrite | src/Response.php:123-130 | the last token writing an attribute exists exactly when some token writes it |
| ResponseParsing.AbsorbAllMeaning | src/Response.php:123-130 | when no token renames the cookie, the name is kept and every attribute holds the value of the last token writing it, or its old value when none does |
| ResponseParsing.AbsorbTwoEqual | src/Response.php:124-127 | a second token whose key equals the name by `==` overwrites the value and adds no attribute |
| ResponseParsing.ParseSetCookie | src/Response.php:120-133 | a Set-Cookie value gives no cookie iff it yields no token; otherwise one bag holding `name` and `value` |
| ResponseParsing.ParseSetCookieMeaning | src/Response.php:120-133 | when no token renames the cookie: it is named after the first key, its value is that of the last token whose key equals the name by `==`, and every other attribute is that of the last token with its key, absent when there is none |
| ResponseParsing.NumericNamesMerge | src/Response.php:124 | `1=a; 01=b` gives the cookie `1` with value `b`: the second key equals the name by `==` |
| ResponseParsing.CookieBagsCount | src/Response.php:45-49 | each Set-Cookie line holding any character other than `=` adds exactly one cookie, in header order |
| ResponseParsing.CookieBags | src/Response.php:45-49 | never more cookies than there are Set-Cookie lines |
| ResponseParsing.CookieTokensRoundTrip | src/Response.php:121 | rendering well-formed pairs as `k=v; k=v` and tokenizing gives the pairs back |
| ResponseParsing.SetCookieOfRender | src/Response.php:120-133 | parsing the `name=value` form of a cookie gives that cookie back |
| ResponseParsing.SessionCookie | src/Response.php:120-133 | `n=v; Path=p; Flag` gives `n`=`v` with `Path`=`p` and `Flag`=`""` |
| ResponseParsing.SidExample | src/Response.php:121-131 | `sid=abc123; Path=/; HttpOnly` gives name `sid`, value `abc123`, `Path` `/` and `HttpOnly` `""` |
| ResponseParsing.ParseTwoPairs | src/Response.php:120-133 | two pairs give a cookie named after the first, with the second as an attribute |
| ResponseParsing.BareAttributeSwallowsNext | src/Response.php:121 | a bare attribute followed by `; k=v` is read as one key `bare; k` (the key run stops only at `=`) |
| ResponseParsing.ContentTypeCharset | src/Response.php:75-78 | a charset found in the Content-Type is non-empty, free of whitespace, and occurs in the header |
| ResponseParsing.CharsetDeclared | src/Response.php:75-78 | the Content-Type yields charset `cs` exactly when it reads as: text without media-type characters, a whole media-type run, `;`, blanks, `charset=` in any letter case, `cs` as a whole non-blank run, then nothing or a blank; in every other case it yields none |
| ResponseParsing.DeclarationOf | src/Response.php:75-78 | a charset found in the Content-Type comes with the pieces of such a reading |
| ResponseParsing.CharsetParam | src/Response.php:75 | the `;\s*charset=(\S+)` group captures a non-empty run without whitespace, found where the parameter sits in the header |
| ResponseParsing.DeclaredCharset | src/Response.php:75-78 | every such reading of a Content-Type, whatever precedes the media type and whatever blank-led text follows `cs`, yields `cs` |
| ResponseParsing.SelectCharset | src/Response.php:74-105 | precedence: the Content-Type charset, then `<meta>`, then `<?xml`, then the detector's answer when all three are absent, kept exactly when it is truthy; the `text/html` default never fires |
| ResponseParsing.DecodeBody | src/Response.php:60-114 | with a gzip Content-Encoding (any letter case) the stored body is the gunzipped one, otherwise it is kept; a selected charset other than UTF-8 (any letter case) converts that body, and no charset or UTF-8 gives it trimmed |
| ResponseParsing.Utf8DeclaredTrims | src/Response.php:60-113 | under any Content-Encoding, a Content-Type declaring UTF-8 (any letter case) makes the decoded body the (possibly gunzipped) body trimmed, whatever the libraries do |
| ResponseParsing.PlainUtf8Example | src/Response.php:108-113 | `text/plain; charset=UTF-8` with body `hello` decodes to `hello` |
| Responses.Response.constructor | src/Response.php:40-54 | code and body are stored; the header array and the cookie list are those of the header block's matches, in order |
| Responses.Response.FileHeaderLines | src/Response.php:42-52 | the loop files every match, giving exactly the header array and the cookie list of all matches |
| Responses.Response.FileMatch | src/Response.php:43-51 | one turn of the loop extends the header array and the cookie list to exactly those of the matches filed so far plus this one |
| Responses.Response.FileHeaderLine | src/Response.php:45-50 | a Set-Cookie line may append one cookie and leaves the headers alone; any other line is assigned, trimmed |
| Responses.Response.ParseCookie | src/Response.php:120-133 | appends exactly the parsed cookie (or nothing) and changes nothing else |
| Responses.FillCookie | src/Response.php:122-130 | the loop builds the cookie named after the first token with every token absorbed in order |
| Responses.NoHeaderText | src/Response.php:42 | an empty header block has no match |
| Responses.Response.GetHeader | src/Response.php:165-171 | a truthy name is an exact, case-sensitive lookup falling back to the default; a falsy name (null, `""`, `"0"`) gives the whole array |
| Responses.Response.HeaderOr | src/Response.php:65-66 | `getHeader($name, '')` gives the stored value or `""` |
| Responses.Response.GetBody | src/Response.php:177-183 | a kept decoded body is returned as is; otherwise body and decoded body become what `decodeBody` makes of the stored body under the response's headers |
| Responses.Response.DecodeStored | src/Response.php:60-114 | `decodeBody` stores both results and changes nothing else |
| Responses.BodyIsCached | src/Response.php:177-183 | a non-empty decoded body is returned again by the next call, even with other libraries |
| Responses.DefaultResponse | src/Response.php:40-54 | `new Response()` has code 0, no header, no cookie and an empty raw body |
| Lifecycle.Target | src/Request.php:532-535 | the URL sent is the URL text, plus `?` and the query of the parameters iff there are any |
| Lifecycle.HeaderLines | src/Request.php:464-471 | one `key: value` line per header, in array order |
| Lifecycle.HeaderLineParts | src/Request.php:467 | each line is the key followed by `: ` and the value, so a key without `:` can be read back |
| Lifecycle.PostValue | src/Request.php:478-486 | fields are URL-encoded iff the Content-Type mentions `urlencoded` in any letter case, and passed as they are otherwise |
| Lifecycle.JsonNotUrlEncoded | src/Request.php:538-540 | the JSON Content-Type never selects URL-encoding |
| Lifecycle.SentHeaders | src/Request.php:538-540 | with JSON, Content-Type is `application/json` whatever was set; other headers are untouched |
| Lifecycle.JsonBodyWins | src/Request.php:546-548 | truthy JSON is the body, encoded, for POST, PUT and DELETE, even with post fields |
| Lifecycle.FieldsBody | src/Request.php:478-486 | without JSON, post fields are the body, URL-encoded iff the Content-Type says urlencoded |
| Lifecycle.NoBodyForGet | src/Request.php:479 | GET and HEAD never set a body |
| Lifecycle.BodyKeeps | src/Request.php:478-486 | the post-field step changes no option other than `CURLOPT_POSTFIELDS` |
| Lifecycle.MethodOption | src/Request.php:120-136 | the cURL option each method sets |
| Lifecycle.SplitRaw | src/Request.php:564-566 | no contract; defines the split: the text after the last `\r\n\r\nHTTP/` (given back `HTTP/`), cut at its first blank line, a missing body being empty; `SplitSingle`, `SplitLast` and `SplitRejoins` state its properties |
| Lifecycle.SplitSingle | src/Request.php:564-566 | without a `\r\n\r\nHTTP/` preamble, the reply is split at its first blank line |
| Lifecycle.SplitLast | src/Request.php:564-566 | with preambles, only the text after the last one, prefixed with `HTTP/`, is split |
| Lifecycle.SplitRejoins | src/Request.php:566 | header block, blank line and body make up the last response again, and the header block has no blank line |
| Lifecycle.IsRelative | src/Request.php:497 | no contract; defines `strpos($location, '/') == 0` with `false == 0` holding; `IsRelativeMeaning` states what it accepts |
| Lifecycle.IsRelativeMeaning | src/Request.php:497 | a location is treated as relative iff it is empty, starts with `/`, or contains no `/` at all |
| Lifecycle.Origin | src/Request.php:498-503 | the prefix starts with `scheme://` when there is a scheme |
| Lifecycle.Resolve | src/Request.php:497-506 | a relative location against a set URL is prefixed with `scheme://[user:pass@]host[:port]`; any other is kept |
| Lifecycle.ResolveExample | src/Request.php:497-506 | `/r` against `https://a.com/p/q` gives `https://a.com/r` |
| Lifecycle.AbsoluteKept | src/Request.php:497 | a location holding a `/` that is not its first character is used as is |
| Lifecycle.ResolveAgainst | src/Curl.php:131-144 | a relative location against a non-empty URL text re-parses it and throws `Invalid URL` when that fails; otherwise as `Resolve` |
| Lifecycle.ResolvedTruthy | src/Request.php:497-507 | against a URL with a scheme every location resolves to a truthy URL text |
| Lifecycle.Chain | src/Request.php:570-584 | the redirect state machine used by every exchange of a chain; at least one exchange |
| Lifecycle.Drop | src/Request.php:551 | the script left after `n` executions, empty once it runs out |
| Lifecycle.DropRest | src/Request.php:551 | consuming one reply then `n` is consuming `n + 1` |
| Lifecycle.ChainFollows | src/Request.php:575-578 | a followed redirect is one exchange in front of the chain from the rest with the counter one higher: same verdict and counter, one more exchange, the same script left and the same last exchange |
| Lifecycle.EndsFollows | src/Request.php:575-578 | how the chain from the rest ends is how the whole chain ends, one exchange later |
| Lifecycle.ChainStops | src/Request.php:579-584 | a delivered reply that is not followed ends the chain after one exchange: the limit exception with the counter kept at the limit, otherwise its code with the counter reset |
| Lifecycle.EndsStopping | src/Request.php:579-584 | such a reply is the last exchange, nothing else of the script is used, and the chain ends as `ChainStops` says |
| Lifecycle.ChainAnswered | src/Request.php:574-585 | a chain that answers does so with the code of its last exchange, which was delivered |
| Lifecycle.EndlessRedirects | src/Request.php:575-581 | a server that always redirects is followed until the counter reaches the limit, then the call throws after `max - count + 1` exchanges |
| Lifecycle.ThreeRedirects | src/Request.php:575-581 | with limit 3 and an always-302 server: three follow-ups, four exchanges, then the exception |
| Lifecycle.ChainCounter | src/Request.php:580-583 | a chain that returns leaves the counter at 0; one that throws leaves it unreset at its last value |
| Lifecycle.ChainLength | src/Request.php:577 | a chain never makes more than `max - count + 1` exchanges, and only one with redirects off |
| Lifecycle.LimitReachedThrows | src/Request.php:580-582 | a counter already at the limit throws after one exchange, even for a 200 |
| Lifecycle.SingleExchange | src/Request.php:579-583 | with redirects off one exchange answers and resets the counter |
| Requests.Request.constructor | src/Request.php:37-113 | the defaults: GET, no URL, empty arrays, no JSON, cookies and redirects off, limit 20, counter 0, a code-0 response, a fresh handle |
| Requests.Request.SetMethod | src/Request.php:120-139 | the five methods are stored with their cURL option; anything else throws `Unknown method` and changes nothing |
| Requests.Request.SetConnectTimeout | src/Request.php:168-171 | the timeout is stored and set on the handle |
| Requests.Request.SetUrl | src/Request.php:186-197 | a non-string throws; an unparsable string throws but still overwrites the parsed URL; otherwise `rawUrl` is the argument and `hasUrl` holds |
| Requests.Request.EnableCookies | src/Request.php:247-249 | only the cookie flag changes, to true |
| Requests.Request.DisableCookies | src/Request.php:254-256 | only the cookie flag changes, to false |
| Requests.Request.AddCookies | src/Request.php:272-287 | a single cookie is wrapped; a cookie object is filed under its own `name`, a plain value `v` under key `k` as `Cookie(k, v)`; later entries win; any other shape throws |
| Requests.Request.StoreAll | src/Request.php:277-283 | the loop files every entry in order |
| Requests.Request.StoreEntry | src/Request.php:278-282 | one entry lands under its cookie's name, or under its key as a new cookie |
| Requests.Request.StoreNext | src/Request.php:277-283 | one step of the loop, leaving the entries still to come unchanged |
| Requests.Request.StoreCookie | src/Request.php:279 | `$this->cookies[$key] = $cookie` |
| Requests.Request.SetCookies | src/Request.php:262-265 | the jar is cleared, then filled as `addCookies` does; a rejected argument leaves it empty |
| Requests.Request.GetHeader | src/Request.php:303-308 | a name that is not null or `""` is an exact lookup falling back to the default; otherwise the whole array (`"0"` is looked up here) |
| Requests.Request.GetHeaders | src/Request.php:293-295 | the whole header array, as `getHeader()` |
| Requests.Request.AddHeaders | src/Request.php:324-329 | a non-array throws; otherwise the headers are merged, later value winning |
| Requests.Request.SetHeaders | src/Request.php:314-317 | the headers are cleared, then merged; a rejected argument leaves them empty |
| Requests.Request.UnsetHeader | src/Request.php:335-339 | only that key is removed, and a missing key changes nothing |
| Requests.Request.AddPostFields | src/Request.php:384-391 | a non-array throws; otherwise the fields are merged, later value winning |
| Requests.Request.SetPostFields | src/Request.php:353-356 | the fields are cleared, then merged; a rejected argument leaves them empty |
| Requests.Request.SetJson | src/Request.php:362-367 | a non-array throws `JSON must be array`; otherwise the JSON is stored |
| Requests.Request.AddParams | src/Request.php:398-405 | a non-array throws; otherwise the parameters are merged, later value winning |
| Requests.Request.SetParams | src/Request.php:373-376 | the parameters are cleared, then merged; a rejected argument leaves them empty |
| Requests.Request.EnableRedirects | src/Request.php:419-422 | following is on with the given limit, 20 by default |
| Requests.Request.DisableRedirects | src/Request.php:427-429 | following is off and the limit kept |
| Requests.Request.GetResponseBody | src/Request.php:221-223 | the body of the last response: the kept decoded body if there is one; otherwise the response's headers decode its body, and both results are stored; code, headers and cookies are unchanged |
| Requests.DomainMatches | src/Request.php:438-442 | no contract; defines the domain check: a domain holding `/` never matches (it ends the pattern), any other matches as a case-sensitive substring of the host |
| Requests.SecureScheme | src/Request.php:448-451 | no contract; defines the `^https$` check: `https`, or `https` with a final newline, which `$` also accepts |
| Requests.Allowed | src/Request.php:438-452 | no contract; defines the three checks, each applied only when the attribute, spelt exactly, and the URL part are both set |
| Requests.Survivors | src/Request.php:436-454 | no contract; defines the allowed cookies in jar order; `SurvivorsMeaning` states what it keeps |
| Requests.WithCookies | src/Request.php:455-457 | no contract; defines the cookie option: the line of the kept cookies, left alone when none is kept; `StaleCookieKept` states the second case |
| Requests.SurvivorsMeaning | src/Request.php:434-454 | every cookie sent passes all three checks and is in the jar, and every jar cookie passing them is sent |
| Requests.SurvivorsStep | src/Request.php:437-453 | the filter loop keeps the jar order |
| Requests.SlashDomainNeverSent | src/Request.php:439 | a `domain` holding `/` breaks the pattern, so its cookie is never sent to a URL with a host |
| Requests.SecureOverHttpsOnly | src/Request.php:448-451 | a `Secure` cookie is never sent over `http` |
| Requests.OtherKeysIgnored | src/Request.php:438-452 | attributes other than `domain`, `path` and `Secure` never affect the filter |
| Requests.CapitalDomainIgnored | src/Request.php:438 | a received `Domain=` attribute is not the `domain` the filter checks, so it never holds a cookie back |
| Requests.AsEntries | src/Request.php:570-571 | a list of cookie objects as array entries, one per cookie, in order |
| Requests.EntryBags | src/Request.php:277-283 | each entry gives one jar slot: a cookie object under its own `name`, a plain value as a new cookie under its key |
| Requests.BagsIn | src/Request.php:434-454 | the jar seen through its cookies' attribute bags, key for key |
| Requests.PlainCookiesAllSent | src/Request.php:434-454 | cookies with only `name` and `value` are all sent, in jar order |
| Requests.AllKept | src/Request.php:434-454 | when every cookie passes, all are sent in jar order |
| Requests.NoneKept | src/Request.php:434-454 | when no cookie passes, none is sent |
| Requests.StaleCookieKept | src/Request.php:455-457 | when no cookie passes, the option keeps the cookie line of an earlier exchange |
| Requests.Request.Passes | src/Request.php:438-452 | the three checks, as the loop applies them |
| Requests.Request.KeptCookies | src/Request.php:435-454 | the texts of the cookies kept, in jar order, joined by `; ` |
| Requests.Request.SetUpCookies | src/Request.php:434-459 | the cookie option becomes the line of the kept cookies, or is left alone when none is kept |
| Requests.Request.SetUpHeaders | src/Request.php:464-472 | the header option becomes the header lines, or is left alone with no header |
| Requests.Request.SetCurlPostFields | src/Request.php:478-486 | the body option is set only for POST, PUT and DELETE, URL-encoded under a urlencoded Content-Type |
| Requests.Prepared | src/Request.php:532-548 | no contract; defines the options at `curl_exec`: URL with query, filtered cookies, header lines with the JSON Content-Type, body; `JsonTypeSent`, `TargetSent` and `StaleCookieKept` state its properties |
| Requests.JsonTypeSent | src/Request.php:538-543 | a request with JSON sends the line `Content-Type: application/json` |
| Requests.TargetSent | src/Request.php:532-536 | the URL option is the URL text with the parameters' query |
| Requests.Request.Prepare | src/Request.php:532-548 | the handle's options become exactly the prepared ones, and the JSON Content-Type is merged into the headers |
| Requests.Request.HandOver | src/Request.php:542-548 | cookies, headers and body are set on the handle in that order |
| Requests.BagsPut | src/Request.php:279-282 | filing a cookie files its bag |
| Requests.NamedEntries | src/Request.php:570-572 | the cookies received are filed under their names |
| Requests.Named | src/Request.php:570-572 | the received cookies in order, each under its own `name` |
| Requests.Build | src/Request.php:564-567 | a delivered reply becomes a response built from the split header block and body |
| Requests.Request.Receive | src/Request.php:551-572 | Content-Type is dropped even when the exchange fails; a failure throws with the error number; otherwise the reply becomes the response and its cookies are filed when cookies are on |
| Requests.Request.Accept | src/Request.php:564-572 | the new response, and with cookies on the jar merged with the received cookies |
| Requests.Request.TakeCookies | src/Request.php:570-572 | `addCookies($response->getCookies())` files every received cookie under its name |
| Requests.FollowTargetParses | src/Request.php:497-507 | from a set URL every location leads to a URL that a parser accepting everything accepts |
| Requests.Followed | src/Request.php:492-511 | `doFollow` before its `send` changes only the method, URL, URL text, `hasUrl`, headers and counter; an exception leaves the headers and the counter as they were; success counts exactly one more redirect and leaves a URL set |
| Requests.FollowedUp | src/Request.php:494-511 | when the chain can be predicted, the preparation always succeeds and lands in `FollowUp` of the resolved location: GET, that URL and URL text, that text as `Referer`, the counter one higher |
| Requests.Request.Retarget | src/Request.php:507-510 | the outcome and new state are `Retargeting`'s: a null location throws `String required, got: NULL`; an unparsable one throws `Invalid URL, got: …` and still overwrites the parsed URL; otherwise URL and URL text become the target and it is merged in as `Referer`; counter, method, cookies, configuration and Content-Type are untouched |
| Requests.Request.Relocate | src/Request.php:496-511 | once the method is GET, the outcome and new state are those of `Followed` for the last response's `Location`; the cookies are untouched |
| Requests.Request.PrepareFollow | src/Request.php:493-511 | the outcome and new state are `Followed` of the state before and the last response's `Location`; the handle gains `CURLOPT_HTTPGET` and nothing else; its log, its script and the jar are untouched |
| Requests.Request.DoFollow | src/Request.php:492-513 | the configuration is kept, executions are only appended, no Content-Type comes back, and a returned response is the current one; when the chain can be predicted, the follow-up `send` is the one `Sends` describes from `FollowUp` of the old state and the old jar, so its first execution carries exactly `Prepared` of that state over the old options with `CURLOPT_HTTPGET` set |
| Requests.Request.Transmit | src/Request.php:532-572 | the log gains exactly `Prepared` of the old state and jar and one reply is used; a failure throws its error number and changes only the headers, to `AfterSend`; a delivered reply gives a fresh response built from it, with headers `AfterSend` and nothing else changed but response and cookies; the jar becomes `AfterReply` of the reply |
| Requests.Request.Conclude | src/Request.php:557-585 | the whole call, counted from the state before its exchange, is what `Sends` describes; a reply that is not followed stays the response, built from it |
| Requests.Request.FollowOn | src/Request.php:575-578 | the redirect branch: after `doFollow` the whole call is what `Sends` describes from the state it began in |
| Requests.Request.FollowedSends | src/Request.php:575-578 | a follow-up `send` that `Sends` describes from the follow-up state over the rest of the script makes the whole call the one `Sends` describes from the state before it, one execution longer |
| Requests.Request.ChainedFollows | src/Request.php:575-578 | a predicted chain after a followed redirect ends as the chain from the state before it, with one more execution |
| Requests.Request.Settle | src/Request.php:579-585 | a counter at the limit throws `Maximum of N redirects reached.` and is kept; any other is reset and the response returned; either way the call is what `Sends` describes, and the response is still the one built from the reply |
| Requests.Request.SettledSends | src/Request.php:579-585 | a delivered reply that is not followed, settled either way, ends the call after one execution as `Sends` and `Chain` say |
| Requests.Request.Deliver | src/Request.php:532-586 | with a URL set, the call is what `Sends` describes from the prepared options of the state before; a reply that is not followed becomes a fresh current response built from it |
| Requests.Request.Send | src/Request.php:521-586 | without a URL: a fresh code-0 response and nothing else changed. With one (`Sends`): the first execution carries `Prepared` of the old state and jar; no Content-Type is left; a returned response is the current one. A reply that is not followed ends the call after one execution, with headers `AfterSend`, jar `AfterReply`, and either its transport error (response and counter kept), the limit exception (counter kept), or the fresh response built from it with the counter reset. A predicted chain ends with the verdict, counter, executions and replies of `Chain`, and an answered one returns the response built from its last reply |
| CurlClient.Curl.constructor | src/Curl.php:16-24 | a fresh handle with the two fixed options, and the counter at 0 |
| CurlClient.Curl.SetHeaders | src/Curl.php:58-66 | one `key: value` line per header in array order, set only when there is a header |
| CurlClient.CookieTexts | src/Curl.php:73-76 | every cookie's text, in jar order |
| CurlClient.RenderedLine | src/Curl.php:78 | texts that render the cookies one by one join to their cookie line |
| CurlClient.Curl.SetCookies | src/Curl.php:71-81 | every cookie, unfiltered and in jar order, joined by `; `; nothing is set for an empty jar |
| CurlClient.UrlEncodedTruthy | src/Curl.php:92 | a Content-Type that mentions urlencoded is truthy, so the extra truthiness test changes nothing |
| CurlClient.Curl.SetPostFields | src/Curl.php:89-98 | the body is set only for POST, PUT and DELETE, URL-encoded iff the Content-Type is truthy and mentions urlencoded |
| CurlClient.Curl.SetMethod | src/Curl.php:103-116 | the cURL option of each of the five methods |
| CurlClient.CurlPrepared | src/Curl.php:170-188 | no contract; defines the options at `curl_exec` of `Curl`: URL text as it is, every cookie, header lines with the JSON Content-Type, method, body; `ParamsNeverSent`, `EveryCookieSent` and `MethodSent` state its properties |
| CurlClient.ParamsNeverSent | src/Curl.php:170-174 | the URL option is the URL text as it is: `$this->params` is never set on `Curl` |
| CurlClient.EveryCookieSent | src/Curl.php:71-81 | every cookie of the jar is sent, whatever its `domain`, `path` or `Secure` |
| CurlClient.SameCookiesWhenAllAllowed | src/Curl.php:71-81 | when the filter of `Request` keeps every cookie, both clients send the same cookie line |
| CurlClient.MethodSent | src/Curl.php:182 | the method option goes out with every exchange |
| CurlClient.Curl.Prepare | src/Curl.php:170-188 | the handle's options become exactly the prepared ones, and the JSON Content-Type is merged into the request's headers |
| CurlClient.Curl.HandOver | src/Curl.php:180-188 | cookies, headers, method and body are set on the handle in that order |
| CurlClient.Curl.Exchange | src/Curl.php:170-194 | one execution sends exactly the prepared options, and the request's Content-Type is dropped whatever the outcome |
| CurlClient.FileReplyCookies | src/Curl.php:210-212 | every received cookie is filed in the request's jar under its name |
| CurlClient.AbsorbReply | src/Curl.php:204-212 | the reply becomes a response, and with cookies on the request's jar takes its cookies |
| CurlClient.Curl.Transmit | src/Curl.php:170-212 | the log gains exactly `CurlPrepared` of the old state and jar and one reply is used; a failure gives its error number; a delivered reply gives a fresh response built from it; the request changes only in its headers, to `AfterSend`, and its cookies, whose jar becomes `AfterReply` of the reply |
| CurlClient.CurlTargetParses | src/Curl.php:131-145 | from a truthy URL text, with a parser that accepts everything, every location resolves to a truthy URL that parses |
| CurlClient.CurlFollowedUp | src/Curl.php:128-149 | when the chain can be predicted, the location always resolves to a truthy URL text and the preparation succeeds, leaving the request in `CurlFollowUp`: GET, that URL and URL text, that text as `Referer` |
| CurlClient.Curl.PrepareFollow | src/Curl.php:126-149 | the method becomes GET (`CURLOPT_HTTPGET` on the request's handle, nothing else there); a relative location with an unparsable URL text throws `Invalid URL`; otherwise the new state and outcome are `Retargeting` of the resolved location; the client's counter rises by 1 only on success; configuration, Content-Type and jar are untouched |
| CurlClient.Curl.DoFollow | src/Curl.php:126-151 | the configuration is kept, executions are only appended, no Content-Type comes back; when the chain can be predicted, the follow-up `send` is the one `CurlSends` describes from `CurlFollowUp` of the old request state with redirects on and the counter one higher, so its first execution carries exactly `CurlPrepared` of that state |
| CurlClient.Curl.Conclude | src/Curl.php:197-225 | the whole call, counted from the state before its exchange, is what `CurlSends` describes; a reply that is not followed, below the limit, is returned as it came from `Transmit` |
| CurlClient.Curl.FollowOn | src/Curl.php:215-218 | the redirect branch: after `doFollow` the whole call is what `CurlSends` describes from the state it began in |
| CurlClient.Curl.CurlFollowedSends | src/Curl.php:215-218 | a follow-up `send` that `CurlSends` describes from the follow-up state over the rest of the script makes the whole call the one it describes from the state before, one execution longer |
| CurlClient.Curl.Settle | src/Curl.php:219-225 | a counter at the limit throws `Maximum of N redirects reached.` and is kept; any other is reset and the response `r` returned; either way the call is what `CurlSends` describes |
| CurlClient.Curl.CurlSettledSends | src/Curl.php:219-225 | a delivered reply that is not followed, settled either way, ends the call after one execution as `CurlSends` and `Chain` say |
| CurlClient.Curl.Send | src/Curl.php:160-226 | a falsy URL text gives a fresh code-0 response and changes nothing. Otherwise (`CurlSends`): the first execution carries `CurlPrepared` of the old request state and jar; no Content-Type is left. A reply that is not followed ends the call after one execution: the request changes only in its headers (`AfterSend`) and jar (`AfterReply`), and the call gives its transport error (counter kept), the limit exception (counter kept), or the response built from it with the counter reset. A predicted chain ends with the verdict, counter, executions and replies of `Chain`, and an answered one returns the response built from its last reply |
| CurlClient.Curl.SendTo | src/Curl.php:170-225 | past the URL test, the call is what `CurlSends` describes, as for `Send` |

## Left out

- The cURL extension itself is not modelled. That covers `curl_init`, `curl_exec`, `curl_getinfo`, `curl_error` and `curl_close`. `curl_exec` is a scripted reply sequence on the handle. The response code is the scripted code.
- The `function_exists('curl_init')` guards are left out. The model assumes the extension is present.
- `enableVerbose`, `disableVerbose` and `getCurlHandle` of both clients are left out, as is `Curl::setConnectTimeout`. They only pass values through to cURL.
- `__destruct` is left out; it only closes the handle.
- The cURL error text in the exception message is left out. The exception carries only the error number.
- `parse_url`, `http_build_query` and `json_encode` are opaque functions of a `Library` value.
- `gzdecode`, `mb_detect_encoding`, `iconv` and the `<meta>` and `<?xml` regular expressions are opaque functions of a `Codecs` value. The model keeps only the order in which they are consulted and the UTF-8/trim decision.
- Post-field values and header values are strings. What cURL does with file paths in post fields is not modelled.
- PHP's renumbering of integer keys in `array_merge` is not modelled. Every array is keyed by strings.
- Requests.Request.constructor: the constructor's optional URL and method arguments are left out. Callers use `SetUrl` and `SetMethod` afterwards, which is what the constructor itself does when they are truthy.
- Requests.Request.Send: the result of a whole redirect chain is predicted only when `parse_url` parses every string and reports a scheme for it (`ParsesEverything`, part of `Following`), a stronger condition than the chain needs. Otherwise the contract still states the first execution, the Content-Type removal and how a reply that is not followed ends the call; after a followed redirect it says only that executions are appended and that the configuration is kept.
- Requests.Request.DoFollow: outside `Following` its contract does not say what the follow-up sends; `PrepareFollow` still states the state it sends from.
- CurlClient.Curl.Send: the chain is predicted only under `CurlFollowing`, for the same reason as `Requests.Request.Send`.
- CurlClient.Curl.DoFollow: outside `CurlFollowing` its contract does not say what the follow-up sends; `PrepareFollow` still states the state it sends from.
- CurlClient.Curl.Send: the fatal error of the undefined `getJSON()` and `isCookiesEnabled()` calls (src/Curl.php:176, 210), which ends every send after `CURLOPT_URL` is set, is not modelled. The model sends as if those calls read the `json` and `cookiesEnabled` fields.
- CurlClient.Curl.Send: the two cURL handles, that of `Curl` and that of the request it sends, are assumed distinct. The source never shares them.
- ResponseParsing.NextToken: its own contract states only the token's shape. The maximal runs and the text left over are stated by `NextTokenOfPair` and `NextTokenWithoutEquals`, which together cover every text the tokenizer is applied to.
- ResponseParsing.AbsorbAll: its own contract states only that `name` and `value` stay in the bag. What each attribute ends up holding is stated by `AbsorbAllMeaning`, for token lists that do not rename the cookie.
- ResponseParsing.ContentTypeCharset: its own contract states what a found charset looks like. Exactly when one is found, and so when none is, is stated by `CharsetDeclared`.
- Strings.LooseEquals: two numeric strings are compared by their exact decimal values, where PHP 8 converts them to integers or doubles first. Numbers that differ only beyond double precision, or overflow to infinity, are equal in PHP and unequal in the model.
- ResponseParsing.ParseSetCookieMeaning: covers values in which no token renames the cookie (a key `name` that does not equal the current name). After such a token, later keys are compared with the new name. `AbsorbAll` follows that, but no lemma summarises it.
- Lower and Upper fold ASCII letters only, as `strtolower`/`strtoupper` do from PHP 8.2 on.
- HttpHelper.php and Http.php are not part of this model. The first is a single-file copy of the same classes, and the second is an older draft.
