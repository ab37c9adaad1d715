/**
 * Values shared by the request, response and transport models: the request
 * methods, the exceptions the client throws, the components `parse_url`
 * reports, and the library functions the client calls without looking inside.
 */
module HttpTypes {
  import opened Wrappers
  import opened Dicts

  /** The five methods `Request` accepts (its `GET` … `HEAD` constants). */
  datatype Method = GET | PUT | POST | HEAD | DELETE

  function MethodName(m: Method): string {
    match m
    case GET => "GET"
    case PUT => "PUT"
    case POST => "POST"
    case HEAD => "HEAD"
    case DELETE => "DELETE"
  }

  /**
   * The `switch` of `setMethod`: exactly the five method names are recognised,
   * compared case-sensitively.
   */
  function ParseMethod(s: string): (r: Option<Method>)
    ensures r.Some? ==> MethodName(r.value) == s
    ensures r.None? ==> forall m :: MethodName(m) != s
  {
    if s == "GET" then Some(GET)
    else if s == "PUT" then Some(PUT)
    else if s == "POST" then Some(POST)
    else if s == "HEAD" then Some(HEAD)
    else if s == "DELETE" then Some(DELETE)
    else None
  }

  /** Every method name is recognised as that method. */
  lemma ParseMethodName(m: Method)
    ensures ParseMethod(MethodName(m)) == Some(m)
  {
  }

  /** The methods for which post fields are handed to the transport. */
  predicate CarriesBody(m: Method) {
    m == POST || m == PUT || m == DELETE
  }

  /** What the client throws. */
  datatype Error =
    | InvalidArgument(message: string)   // \InvalidArgumentException
    | TransportError(errno: int)         // RequestException carrying curl_errno
    | TooManyRedirects(max: int)         // RequestException "Maximum of … redirects reached."

  datatype Result<+T> = Ok(value: T) | Err(error: Error)

  /** The outcome of a method that returns nothing but may throw. */
  datatype Outcome = Done | Thrown(error: Error)

  /**
   * An argument the source checks with `is_array`/`is_string`: either a value of
   * the expected shape, or something else, of which only `gettype` is used.
   */
  datatype Arg<+T> = Given(value: T) | WrongType(typeName: string)

  /**
   * The components `parse_url` reports; an absent component is a key missing
   * from its array. The port is kept as the decimal text PHP concatenates.
   */
  datatype UrlParts = UrlParts(
    scheme: Option<string>,
    host: Option<string>,
    port: Option<string>,
    user: Option<string>,
    pass: Option<string>,
    path: Option<string>,
    query: Option<string>,
    fragment: Option<string>)
  {
    /** An array with no component is empty, and PHP's `== FALSE` holds for it. */
    predicate IsEmpty() {
      scheme.None? && host.None? && port.None? && user.None? && pass.None?
      && path.None? && query.None? && fragment.None?
    }
  }

  /**
   * The value of `$this->url` after `@parse_url`: absent for `false`. Loose
   * comparison with `FALSE` or `NULL` holds for `false` and for the empty array.
   */
  predicate UrlTruthy(u: Option<UrlParts>) {
    u.Some? && !u.value.IsEmpty()
  }

  /**
   * The PHP library functions the client calls: `parse_url` (absent for
   * `false`), `http_build_query` and `json_encode` over string-valued arrays.
   */
  datatype Library = Library(
    parseUrl: string -> Option<UrlParts>,
    buildQuery: Dict<string> -> string,
    jsonEncode: Dict<string> -> string)

  /**
   * A `parse_url` that accepts every string and always reports a scheme, so
   * that no URL the redirect logic builds is rejected.
   */
  ghost predicate ParsesEverything(parse: string -> Option<UrlParts>) {
    forall s :: parse(s).Some? && parse(s).value.scheme.Some?
  }
}
