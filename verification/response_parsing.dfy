/**
 * What `Response` makes of the header block and of the body: the header lines
 * matched by `/^(?<key>[^\:\n]+)\:(?<value>.+)$/m`, the `Set-Cookie` values cut
 * into attribute tokens by `/(?<key>[^\=]+)[\=]{0,1}(?<value>[^\;]*)[\;]{0,1}\s*\/m`,
 * and the choice of the charset the body is decoded from.
 */
module ResponseParsing {
  import opened Wrappers
  import opened Strings
  import opened Dicts
  import opened Cookies

  // ---------------------------------------------------------------- header lines

  /**
   * One line of the header block (lines never contain a newline). The pattern
   * matches when the first colon is preceded by at least one character and
   * followed by at least one: the key is everything before that colon,
   * untrimmed, and the value everything after it.
   */
  function HeaderLine(line: string): (r: Option<(string, string)>)
    ensures r.Some? <==> exists i :: 0 < i < |line| - 1 && line[i] == ':' && ':' !in line[..i]
    ensures r.Some? ==> line == r.value.0 + ":" + r.value.1
    ensures r.Some? ==> r.value.0 != [] && ':' !in r.value.0 && r.value.1 != []
  {
    var i := SpanNot(line, ':');
    if 0 < i && i + 1 < |line| then
      assert line == line[..i] + ":" + line[i + 1..];
      Some((line[..i], line[i + 1..]))
    else
      FirstOccurrence(line, ':');
      None
  }

  /** An index holding `c` with no `c` before it is where `SpanNot` stops. */
  lemma FirstOccurrence(s: string, c: char)
    ensures forall j :: 0 <= j < |s| && s[j] == c && c !in s[..j] ==> j == SpanNot(s, c)
  {
    var n := SpanNot(s, c);
    assert forall j :: 0 <= j < n ==> s[..n][j] == s[j];
    assert n < |s| ==> forall j :: n < j <= |s| ==> s[..j][n] == s[n];
  }

  /** The matches of the header pattern over a sequence of lines, in order. */
  function LineMatches(lines: seq<string>): (ms: seq<(string, string)>)
    ensures |ms| <= |lines|
    ensures forall j :: 0 <= j < |ms| ==> ms[j].0 != [] && ':' !in ms[j].0 && ms[j].1 != []
  {
    if lines == [] then []
    else
      match HeaderLine(lines[0])
      case Some(m) => [m] + LineMatches(lines[1..])
      case None => LineMatches(lines[1..])
  }

  /** All `key`/`value` captures of the header pattern, line by line. */
  function HeaderFields(text: string): seq<(string, string)> {
    LineMatches(Explode(text, "\n"))
  }

  /** `strtolower($key) == 'set-cookie'`. */
  predicate IsSetCookie(key: string) {
    Lower(key) == "set-cookie"
  }

  /**
   * `$this->headers[$key] = trim($value)` for every match in order, except the
   * `Set-Cookie` lines, which are diverted to the cookie parser.
   */
  function HeaderDict(ms: seq<(string, string)>): Dict<string> {
    if ms == [] then []
    else
      var h := HeaderDict(ms[..|ms| - 1]);
      var m := ms[|ms| - 1];
      if IsSetCookie(m.0) then h else Put(h, m.0, Trim(m.1))
  }

  /**
   * For a repeated header the last occurrence wins, its value trimmed; a
   * `Set-Cookie` key never appears.
   */
  lemma {:induction false} HeaderDictLookup(ms: seq<(string, string)>, k: string)
    ensures Get(HeaderDict(ms), k) ==
      if IsSetCookie(k) then None
      else match Last(ms, k) case None => None case Some(v) => Some(Trim(v))
  {
    if ms != [] {
      var init := ms[..|ms| - 1];
      var m := ms[|ms| - 1];
      HeaderDictLookup(init, k);
      assert Last(ms, k) == if m.0 == k then Some(m.1) else Last(init, k);
      if IsSetCookie(m.0) {
        assert HeaderDict(ms) == HeaderDict(init);
      } else {
        assert HeaderDict(ms) == Put(HeaderDict(init), m.0, Trim(m.1));
        PutMeaning(HeaderDict(init), m.0, Trim(m.1));
      }
    }
  }

  /** The header array never holds a key twice. */
  lemma {:induction false} HeaderDictDistinct(ms: seq<(string, string)>)
    ensures Distinct(HeaderDict(ms))
  {
    if ms != [] {
      var init := ms[..|ms| - 1];
      HeaderDictDistinct(init);
      var m := ms[|ms| - 1];
      if !IsSetCookie(m.0) {
        PutDistinct(HeaderDict(init), m.0, Trim(m.1));
      }
    }
  }

  /** The trimmed values of the `Set-Cookie` lines, in header order. */
  function SetCookieValues(ms: seq<(string, string)>): (vs: seq<string>)
    ensures |vs| <= |ms|
  {
    if ms == [] then []
    else
      var vs := SetCookieValues(ms[..|ms| - 1]);
      var m := ms[|ms| - 1];
      if IsSetCookie(m.0) then vs + [Trim(m.1)] else vs
  }

  // ---------------------------------------------------------------- Set-Cookie values

  /**
   * The successive matches of the cookie pattern: a key is a maximal run of
   * characters other than `=` (so it may contain `;` and spaces), then an
   * optional `=`, a value running up to the next `;`, an optional `;` and any
   * whitespace. A `=` where a key should start cannot begin a match and is
   * passed over.
   */
  function CookieTokens(s: string): (ts: seq<(string, string)>)
    ensures forall j :: 0 <= j < |ts| ==> IsToken(ts[j])
    decreases |s|
  {
    if s == [] then []
    else if s[0] == '=' then CookieTokens(s[1..])
    else
      var r := NextToken(s);
      [r.0] + CookieTokens(r.1)
  }

  /** What every match holds: a non-empty key without `=` and a value without `;`. */
  predicate IsToken(t: (string, string)) {
    t.0 != [] && '=' !in t.0 && ';' !in t.1
  }

  /** One match of the cookie pattern at the start of `s`, and what follows it. */
  function NextToken(s: string): (r: ((string, string), string))
    requires s != [] && s[0] != '='
    ensures |r.1| < |s|
    ensures IsToken(r.0)
  {
    var k := SpanNot(s, '=');
    var afterKey := s[k..];
    var valueStart := if afterKey != [] then afterKey[1..] else afterKey;
    var v := SpanNot(valueStart, ';');
    var afterValue := valueStart[v..];
    var next := if afterValue != [] then afterValue[1..] else afterValue;
    ((s[..k], valueStart[..v]), SkipSpaces(next))
  }

  /** A value yields no token at all exactly when it consists of `=` signs only. */
  lemma {:induction false} CookieTokensEmpty(s: string)
    ensures CookieTokens(s) == [] <==> forall j :: 0 <= j < |s| ==> s[j] == '='
    decreases |s|
  {
    if s != [] && s[0] == '=' {
      CookieTokensEmpty(s[1..]);
      assert forall j :: 1 <= j < |s| ==> s[j] == s[1..][j - 1];
    }
  }

  /**
   * The attribute a token writes into a cookie currently named `name`:
   * `value` when its key equals the name by PHP's `==`, its own key otherwise.
   */
  function Slot(t: (string, string), name: string): string {
    if LooseEquals(t.0, name) then "value" else t.0
  }

  /**
   * One iteration of `parseCookie`'s loop: a token whose key equals the current
   * `name` (by PHP's loose `==`) sets `value`, any other sets the attribute of
   * its own name. That one attribute takes the token's value and no other
   * attribute changes.
   */
  function Absorb(bag: Bag, t: (string, string)): (r: Bag)
    ensures var k := Slot(t, Lookup(bag, "name").GetOr(""));
              Lookup(r, k) == Some(t.1) && forall k' :: k' != k ==> Lookup(r, k') == Lookup(bag, k')
  {
    if LooseEquals(t.0, Lookup(bag, "name").GetOr("")) then bag["value" := t.1] else bag[t.0 := t.1]
  }

  /** The bag after absorbing the tokens in order. */
  function AbsorbAll(bag: Bag, ts: seq<(string, string)>): (r: Bag)
    ensures "name" in bag && "value" in bag ==> "name" in r && "value" in r
  {
    if ts == [] then bag else Absorb(AbsorbAll(bag, ts[..|ts| - 1]), ts[|ts| - 1])
  }

  /** The value of the last token that writes attribute `k` of a cookie named `name`, if any. */
  function LastWrite(ts: seq<(string, string)>, name: string, k: string): (r: Option<string>)
    ensures r.Some? <==> exists j :: 0 <= j < |ts| && Slot(ts[j], name) == k
  {
    if ts == [] then None
    else if Slot(ts[|ts| - 1], name) == k then Some(ts[|ts| - 1].1)
    else
      assert forall j :: 0 <= j < |ts| - 1 ==> ts[..|ts| - 1][j] == ts[j];
      LastWrite(ts[..|ts| - 1], name, k)
  }

  /**
   * When no token renames the cookie, absorbing tokens gives every attribute
   * the value of the last token that writes it, and leaves the others as they were.
   */
  lemma {:induction false} AbsorbAllMeaning(bag: Bag, ts: seq<(string, string)>)
    requires "name" in bag
    requires forall j :: 0 <= j < |ts| ==> Slot(ts[j], bag["name"]) != "name"
    ensures Lookup(AbsorbAll(bag, ts), "name") == Some(bag["name"])
    ensures forall k :: Lookup(AbsorbAll(bag, ts), k) ==
              if LastWrite(ts, bag["name"], k).Some? then LastWrite(ts, bag["name"], k) else Lookup(bag, k)
  {
    if ts != [] {
      var init := ts[..|ts| - 1];
      var t := ts[|ts| - 1];
      assert forall j :: 0 <= j < |init| ==> init[j] == ts[j];
      AbsorbAllMeaning(bag, init);
      assert AbsorbAll(bag, ts) == Absorb(AbsorbAll(bag, init), t);
    }
  }

  /**
   * `parseCookie`: a cookie named after the first token's key, with every token
   * absorbed; nothing when the value yields no token.
   */
  function ParseSetCookie(value: string): (r: Option<Bag>)
    ensures r.None? <==> CookieTokens(value) == []
    ensures r.Some? ==> "name" in r.value && "value" in r.value
  {
    var ts := CookieTokens(value);
    if ts == [] then None else Some(AbsorbAll(Fresh(ts[0].0, ""), ts))
  }

  /**
   * The cookie a `Set-Cookie` value gives, when no token renames it: named
   * after the first key; `value` is the value of the last token whose key
   * equals that name by PHP's `==` (the first token at least); every other
   * attribute is that of the last token with its key; nothing else is set.
   */
  lemma ParseSetCookieMeaning(value: string)
    requires CookieTokens(value) != []
    requires var ts := CookieTokens(value); forall j :: 0 <= j < |ts| ==> Slot(ts[j], ts[0].0) != "name"
    ensures var ts := CookieTokens(value);
              ParseSetCookie(value).Some?
              && Lookup(ParseSetCookie(value).value, "name") == Some(ts[0].0)
              && Lookup(ParseSetCookie(value).value, "value") == LastWrite(ts, ts[0].0, "value")
              && LastWrite(ts, ts[0].0, "value").Some?
              && forall k :: k != "name" ==> Lookup(ParseSetCookie(value).value, k) == LastWrite(ts, ts[0].0, k)
  {
    var ts := CookieTokens(value);
    var b0 := Fresh(ts[0].0, "");
    assert b0["name"] == ts[0].0;
    assert Slot(ts[0], ts[0].0) == "value";
    AbsorbAllMeaning(b0, ts);
  }

  /** The cookies the `Set-Cookie` lines produce, one per line that yields a token, in header order. */
  function CookieBags(ms: seq<(string, string)>): (bs: seq<Bag>)
    ensures |bs| <= |SetCookieValues(ms)|
  {
    if ms == [] then []
    else
      var bs := CookieBags(ms[..|ms| - 1]);
      var m := ms[|ms| - 1];
      if IsSetCookie(m.0) then
        match ParseSetCookie(Trim(m.1))
        case Some(b) => bs + [b]
        case None => bs
      else bs
  }

  /** Every `Set-Cookie` line whose value holds a character other than `=` adds exactly one cookie. */
  lemma {:induction false} CookieBagsCount(ms: seq<(string, string)>)
    requires forall v :: v in SetCookieValues(ms) ==> exists j :: 0 <= j < |v| && v[j] != '='
    ensures |CookieBags(ms)| == |SetCookieValues(ms)|
  {
    if ms != [] {
      var init := ms[..|ms| - 1];
      var m := ms[|ms| - 1];
      assert forall v :: v in SetCookieValues(init) ==> v in SetCookieValues(ms);
      CookieBagsCount(init);
      if IsSetCookie(m.0) {
        assert Trim(m.1) in SetCookieValues(ms);
        CookieTokensEmpty(Trim(m.1));
      }
    }
  }

  /** `k1=v1; k2=v2; …`, the way attributes are written in a `Set-Cookie` value. */
  function RenderPairs(ps: seq<(string, string)>): string {
    if ps == [] then ""
    else if |ps| == 1 then ps[0].0 + "=" + ps[0].1
    else ps[0].0 + "=" + ps[0].1 + "; " + RenderPairs(ps[1..])
  }

  /** An attribute that survives a round trip: a key that is non-empty, has no `=` and does not start with whitespace, and a value without `;`. */
  predicate WellFormedPair(p: (string, string)) {
    p.0 != [] && '=' !in p.0 && !IsSpace(p.0[0]) && ';' !in p.1
  }

  lemma SpanNotPrefix(a: string, b: string, c: char)
    requires c !in a
    requires b == [] || b[0] == c
    ensures SpanNot(a + b, c) == |a|
  {
    if a != [] {
      assert (a + b)[1..] == a[1..] + b;
      SpanNotPrefix(a[1..], b, c);
    }
  }

  /** Splitting `a + [c] + b` at the first `c`, where `a` holds none. */
  lemma SplitAtFirst(a: string, c: char, b: string)
    requires c !in a
    ensures SpanNot(a + [c] + b, c) == |a|
    ensures (a + [c] + b)[..|a|] == a
    ensures (a + [c] + b)[|a|..] == [c] + b
  {
    SpanNotPrefix(a, [c] + b, c);
    assert a + [c] + b == a + ([c] + b);
  }

  /**
   * The first match takes maximal runs: whenever `s` is a key without `=`,
   * an `=`, a value without `;` and then nothing or a `;`, the match is that
   * key and that value, and what follows the `;` (minus leading whitespace)
   * is left over.
   */
  lemma NextTokenOfPair(k: string, v: string, tail: string)
    requires k != [] && '=' !in k && ';' !in v
    requires tail == [] || tail[0] == ';'
    ensures NextToken(k + "=" + v + tail) == ((k, v), SkipSpaces(if tail == [] then [] else tail[1..]))
  {
    var valueStart := v + tail;
    assert k + "=" + v + tail == k + ['='] + valueStart;
    SplitAtFirst(k, '=', valueStart);
    assert (['='] + valueStart)[1..] == valueStart;
    SpanNotPrefix(v, tail, ';');
    assert valueStart[..|v|] == v;
    assert valueStart[|v|..] == tail;
  }

  /** Without any `=`, the whole text is the key and nothing is left over. */
  lemma NextTokenWithoutEquals(s: string)
    requires s != [] && '=' !in s
    ensures NextToken(s) == ((s, []), [])
  {
    assert s[..|s|] == s;
  }

  lemma RenderPairsStart(ps: seq<(string, string)>)
    requires ps != [] && ps[0].0 != []
    ensures RenderPairs(ps) != [] && RenderPairs(ps)[0] == ps[0].0[0]
  {
    if |ps| == 1 {
      assert RenderPairs(ps) == ps[0].0 + "=" + ps[0].1;
    } else {
      assert RenderPairs(ps) == ps[0].0 + ("=" + ps[0].1 + "; " + RenderPairs(ps[1..]));
    }
  }

  lemma SkipOneSpace(rest: string)
    requires rest != [] && !IsSpace(rest[0])
    ensures SkipSpaces(" " + rest) == rest
  {
    assert (" " + rest)[1..] == rest;
  }

  /** Tokenizing a rendered attribute followed by more text. */
  lemma CookieTokensOfPair(k: string, v: string, tail: string)
    requires WellFormedPair((k, v))
    requires tail == [] || tail[0] == ';'
    ensures CookieTokens(k + "=" + v + tail) == [(k, v)] + CookieTokens(SkipSpaces(if tail == [] then [] else tail[1..]))
  {
    var s := k + "=" + v + tail;
    assert s != [] && s[0] != '=' by {
      assert s[0] == k[0];
    }
    NextTokenOfPair(k, v, tail);
    CookieTokensStep(s);
  }

  lemma CookieTokensStep(s: string)
    requires s != [] && s[0] != '='
    ensures CookieTokens(s) == [NextToken(s).0] + CookieTokens(NextToken(s).1)
  {
  }

  /** An attribute followed by `; ` and more attributes. */
  lemma TokensAfterPair(k: string, v: string, rest: string)
    requires WellFormedPair((k, v))
    requires rest != [] && !IsSpace(rest[0])
    ensures CookieTokens(k + "=" + v + ("; " + rest)) == [(k, v)] + CookieTokens(rest)
  {
    CookieTokensOfPair(k, v, "; " + rest);
    assert ("; " + rest)[1..] == " " + rest;
    SkipOneSpace(rest);
  }

  /** An attribute at the end of the value. */
  lemma TokensLastPair(k: string, v: string)
    requires WellFormedPair((k, v))
    ensures CookieTokens(k + "=" + v) == [(k, v)]
  {
    var s := k + "=" + v;
    assert s + "" == s;
    CookieTokensOfPair(k, v, "");
    assert CookieTokens(SkipSpaces("")) == [];
  }

  /** Tokenizing a rendered attribute list is tokenizing its first attribute and then the rest. */
  lemma CookieTokensCons(ps: seq<(string, string)>)
    requires |ps| > 1 && WellFormedPair(ps[0]) && WellFormedPair(ps[1])
    ensures CookieTokens(RenderPairs(ps)) == [ps[0]] + CookieTokens(RenderPairs(ps[1..]))
  {
    var p := ps[0];
    var rest := RenderPairs(ps[1..]);
    assert RenderPairs(ps) == p.0 + "=" + p.1 + ("; " + rest);
    RenderPairsStart(ps[1..]);
    TokensAfterPair(p.0, p.1, rest);
  }

  /** Tokenizing rendered attributes gives them back. */
  lemma {:induction false} CookieTokensRoundTrip(ps: seq<(string, string)>)
    requires forall j :: 0 <= j < |ps| ==> WellFormedPair(ps[j])
    ensures CookieTokens(RenderPairs(ps)) == ps
  {
    if |ps| == 1 {
      TokensLastPair(ps[0].0, ps[0].1);
      assert ps == [ps[0]];
    } else if |ps| > 1 {
      CookieTokensCons(ps);
      CookieTokensRoundTrip(ps[1..]);
      assert ps == [ps[0]] + ps[1..];
    }
  }

  /**
   * A cookie written as its `__toString` form and read back as a `Set-Cookie`
   * value is the same cookie.
   */
  lemma SetCookieOfRender(name: string, value: string)
    requires WellFormedPair((name, value))
    ensures ParseSetCookie(Render(Fresh(name, value))) == Some(Fresh(name, value))
  {
    assert Render(Fresh(name, value)) == RenderPairs([(name, value)]);
    CookieTokensRoundTrip([(name, value)]);
    var ts := [(name, value)];
    assert ts[..0] == [];
    assert AbsorbAll(Fresh(name, ""), ts) == Absorb(Fresh(name, ""), (name, value));
    assert Fresh(name, "")["value" := value] == Fresh(name, value);
  }

  /** A bare attribute such as `HttpOnly` becomes a token with an empty value. */
  lemma CookieTokensBare(k: string)
    requires k != [] && '=' !in k && !IsSpace(k[0])
    ensures CookieTokens(k) == [(k, "")]
  {
    SpanNotPrefix(k, "", '=');
    assert k + "" == k;
    assert k[..|k|] == k;
  }

  /**
   * A session cookie such as `sid=abc123; Path=/; HttpOnly` is named after its
   * first attribute, takes that attribute's value, and keeps `Path` and the
   * bare flag (with an empty value) as further attributes.
   */
  lemma SessionCookie(name: string, value: string, path: string, flag: string)
    requires WellFormedPair((name, value)) && ';' !in path
    requires flag != [] && '=' !in flag && !IsSpace(flag[0])
    requires name != "Path" && !LooseEquals(flag, name)
    ensures ParseSetCookie(name + "=" + value + "; Path=" + path + "; " + flag)
         == Some(Fresh(name, value)["Path" := path][flag := ""])
  {
    SessionTokens(name, value, path, flag);
    AbsorbSession(name, value, path, flag);
  }

  lemma SessionTokens(name: string, value: string, path: string, flag: string)
    requires WellFormedPair((name, value)) && ';' !in path
    requires flag != [] && '=' !in flag && !IsSpace(flag[0])
    ensures CookieTokens(name + "=" + value + "; Path=" + path + "; " + flag)
         == [(name, value), ("Path", path), (flag, "")]
  {
    SessionRegroup(name, value, path, flag);
    assert WellFormedPair(("Path", path));
    PairPairBare(name, value, "Path", path, flag);
  }

  /** Two attributes and a bare one, in general. */
  lemma PairPairBare(k1: string, v1: string, k2: string, v2: string, bare: string)
    requires WellFormedPair((k1, v1)) && WellFormedPair((k2, v2))
    requires bare != [] && '=' !in bare && !IsSpace(bare[0])
    ensures CookieTokens(k1 + "=" + v1 + ("; " + (k2 + "=" + v2 + ("; " + bare))))
         == [(k1, v1), (k2, v2), (bare, "")]
  {
    var second := k2 + "=" + v2 + ("; " + bare);
    assert second[0] == k2[0];
    TokensAfterPair(k1, v1, second);
    PairBare(k2, v2, bare);
  }

  /** An attribute followed by a bare one. */
  lemma PairBare(k: string, v: string, bare: string)
    requires WellFormedPair((k, v))
    requires bare != [] && '=' !in bare && !IsSpace(bare[0])
    ensures CookieTokens(k + "=" + v + ("; " + bare)) == [(k, v), (bare, "")]
  {
    TokensAfterPair(k, v, bare);
    CookieTokensBare(bare);
  }

  /** Two attributes: the cookie is named after the first and takes its value; the second is kept under its own key. */
  lemma ParseTwoPairs(k1: string, v1: string, k2: string, v2: string)
    requires WellFormedPair((k1, v1)) && WellFormedPair((k2, v2)) && !LooseEquals(k2, k1)
    ensures ParseSetCookie(k1 + "=" + v1 + ("; " + (k2 + "=" + v2))) == Some(Fresh(k1, v1)[k2 := v2])
  {
    TwoPairTokens(k1, v1, k2, v2);
    AbsorbTwo(k1, v1, k2, v2);
  }

  lemma TwoPairTokens(k1: string, v1: string, k2: string, v2: string)
    requires WellFormedPair((k1, v1)) && WellFormedPair((k2, v2))
    ensures CookieTokens(k1 + "=" + v1 + ("; " + (k2 + "=" + v2))) == [(k1, v1), (k2, v2)]
  {
    var second := k2 + "=" + v2;
    assert second[0] == k2[0];
    TokensAfterPair(k1, v1, second);
    TokensLastPair(k2, v2);
  }

  lemma AbsorbTwo(k1: string, v1: string, k2: string, v2: string)
    requires !LooseEquals(k2, k1)
    ensures AbsorbAll(Fresh(k1, ""), [(k1, v1), (k2, v2)]) == Fresh(k1, v1)[k2 := v2]
  {
    var ts := [(k1, v1), (k2, v2)];
    assert ts[..1] == [(k1, v1)] && ts[..1][..0] == [];
    var b0 := Fresh(k1, "");
    assert AbsorbAll(b0, ts[..1]) == b0["value" := v1];
    assert b0["value" := v1] == Fresh(k1, v1);
  }

  /** A second token whose key equals the name by PHP's `==` overwrites the value instead of adding an attribute. */
  lemma AbsorbTwoEqual(k1: string, v1: string, k2: string, v2: string)
    requires LooseEquals(k2, k1)
    ensures AbsorbAll(Fresh(k1, ""), [(k1, v1), (k2, v2)]) == Fresh(k1, v2)
  {
    var ts := [(k1, v1), (k2, v2)];
    assert ts[..1] == [(k1, v1)] && ts[..1][..0] == [];
    var b0 := Fresh(k1, "");
    assert AbsorbAll(b0, ts[..1]) == b0["value" := v1];
    assert b0["value" := v1]["value" := v2] == Fresh(k1, v2);
  }

  /**
   * Keys are compared with PHP's `==`, so numeric keys that differ as text
   * still match: `1=a; 01=b` is the cookie `1` with value `b`.
   */
  lemma NumericNamesMerge(value: string)
    requires value == "1=a; 01=b"
    ensures ParseSetCookie(value) == Some(Fresh("1", "b"))
  {
    assert value == "1" + "=" + "a" + ("; " + ("01" + "=" + "b"));
    assert WellFormedPair(("1", "a")) && WellFormedPair(("01", "b"));
    TwoPairTokens("1", "a", "01", "b");
    LeadingZeroEquals("01", "1");
    AbsorbTwoEqual("1", "a", "01", "b");
  }

  lemma AbsorbSession(name: string, value: string, path: string, flag: string)
    requires name != "Path" && !LooseEquals(flag, name)
    ensures AbsorbAll(Fresh(name, ""), [(name, value), ("Path", path), (flag, "")])
         == Fresh(name, value)["Path" := path][flag := ""]
  {
    var ts := [(name, value), ("Path", path), (flag, "")];
    var b2 := Fresh(name, value)["Path" := path];
    assert ts[..2] == [(name, value), ("Path", path)];
    AbsorbNamePath(name, value, path);
    assert Lookup(b2, "name") == Some(name);
    assert Absorb(b2, (flag, "")) == b2[flag := ""];
  }

  /** The first two tokens of a session cookie: its value, then its `Path`. */
  lemma AbsorbNamePath(name: string, value: string, path: string)
    requires name != "Path"
    ensures AbsorbAll(Fresh(name, ""), [(name, value), ("Path", path)]) == Fresh(name, value)["Path" := path]
  {
    var ts := [(name, value), ("Path", path)];
    var b1 := Fresh(name, value);
    assert ts[..1] == [(name, value)] && ts[..1][..0] == [];
    assert AbsorbAll(Fresh(name, ""), ts[..1]) == b1 by {
      assert Absorb(Fresh(name, ""), (name, value)) == Fresh(name, "")["value" := value];
    }
    assert Lookup(b1, "name") == Some(name);
    PathPlain(name);
    assert Absorb(b1, ("Path", path)) == b1["Path" := path];
  }

  /** `Path` holds no digit, so a token keyed `Path` equals the name only when the name is `Path`. */
  lemma PathPlain(name: string)
    ensures LooseEquals("Path", name) <==> name == "Path"
  {
    var p := "Path";
    assert forall j :: 0 <= j < |p| ==> !IsDigit(p[j]);
    LooseEqualsPlain(p, name);
  }

  lemma SessionRegroup(name: string, value: string, path: string, flag: string)
    ensures name + "=" + value + "; Path=" + path + "; " + flag
         == name + "=" + value + ("; " + ("Path" + "=" + path + ("; " + flag)))
  {
  }

  /**
   * Because a key runs up to the next `=`, a bare attribute followed by
   * another attribute swallows it: `a=1; Secure; Path=/` yields `a` = `1` and
   * an attribute named `Secure; Path` with value `/`.
   */
  lemma BareAttributeSwallowsNext(k: string, v: string, bare: string, k2: string, v2: string)
    requires WellFormedPair((k, v)) && WellFormedPair((k2, v2))
    requires bare != [] && '=' !in bare && !IsSpace(bare[0])
    ensures CookieTokens(k + "=" + v + "; " + bare + "; " + k2 + "=" + v2) == [(k, v), (bare + "; " + k2, v2)]
  {
    BareFirstToken(k, v, bare, k2, v2);
    TokensLastPair(bare + "; " + k2, v2);
  }

  lemma BareFirstToken(k: string, v: string, bare: string, k2: string, v2: string)
    requires WellFormedPair((k, v))
    requires bare != [] && !IsSpace(bare[0])
    ensures CookieTokens(k + "=" + v + "; " + bare + "; " + k2 + "=" + v2)
         == [(k, v)] + CookieTokens((bare + "; " + k2) + "=" + v2)
  {
    var tail := (bare + "; " + k2) + "=" + v2;
    ConcatRegroup(k, v, bare, k2, v2);
    assert tail[0] == bare[0];
    TokensAfterPair(k, v, tail);
  }

  lemma ConcatRegroup(k: string, v: string, bare: string, k2: string, v2: string)
    ensures k + "=" + v + "; " + bare + "; " + k2 + "=" + v2 == k + "=" + v + ("; " + ((bare + "; " + k2) + "=" + v2))
  {
  }

  // ---------------------------------------------------------------- charset

  /** PCRE's `\w` without the `u` modifier. */
  predicate IsWordChar(c: char) {
    ('a' <= c <= 'z') || ('A' <= c <= 'Z') || ('0' <= c <= '9') || c == '_'
  }

  /** The class `[\w/+]` a media type is made of. */
  predicate IsMediaChar(c: char) {
    IsWordChar(c) || c == '/' || c == '+'
  }

  /** The index of the first media-type character. */
  function FirstMediaChar(s: string): (r: Option<nat>)
    ensures r.Some? ==> r.value < |s| && IsMediaChar(s[r.value])
    ensures r.Some? ==> forall j :: 0 <= j < r.value ==> !IsMediaChar(s[j])
    ensures r.None? ==> forall j :: 0 <= j < |s| ==> !IsMediaChar(s[j])
  {
    if s == [] then None
    else if IsMediaChar(s[0]) then Some(0)
    else match FirstMediaChar(s[1..]) case None => None case Some(i) => Some(i + 1)
  }

  /** The length of the run of media-type characters `s` starts with. */
  function MediaRun(s: string): (n: nat)
    ensures n <= |s|
    ensures forall j :: 0 <= j < n ==> IsMediaChar(s[j])
    ensures n < |s| ==> !IsMediaChar(s[n])
  {
    if s != [] && IsMediaChar(s[0]) then 1 + MediaRun(s[1..]) else 0
  }

  /** The length of the run of non-whitespace characters (`\S+`) `s` starts with. */
  function NonSpaceRun(s: string): (n: nat)
    ensures n <= |s|
    ensures forall j :: 0 <= j < n ==> !IsSpace(s[j])
    ensures n < |s| ==> IsSpace(s[n])
  {
    if s != [] && !IsSpace(s[0]) then 1 + NonSpaceRun(s[1..]) else 0
  }

  /** The optional group `(;\s*charset=(\S+))`, tried right after the media type; its third capture. */
  function CharsetParam(s: string): (r: Option<string>)
    ensures r.Some? ==> r.value != [] && forall j :: 0 <= j < |r.value| ==> !IsSpace(r.value[j])
    ensures r.Some? ==> s != [] && OccursAt(s, r.value, |s| - |SkipSpaces(s[1..])| + 8)
  {
    if s != [] && s[0] == ';' then
      var q := SkipSpaces(s[1..]);
      if |q| >= 8 && Lower(q[..8]) == "charset=" then
        var n := NonSpaceRun(q[8..]);
        ParamValueOccurs(s, n);
        if n > 0 then Some(q[8..][..n]) else None
      else None
    else None
  }

  /**
   * Step 1 of `decodeBody`: `@([\w/+]+)(;\s*charset=(\S+))?@i` against the
   * Content-Type header. The match starts at the first media-type character,
   * takes the whole run of them, and reports a charset only when `;` follows
   * that run directly.
   */
  function ContentTypeCharset(contentType: string): (r: Option<string>)
    ensures r.Some? ==> r.value != [] && forall j :: 0 <= j < |r.value| ==> !IsSpace(r.value[j])
    ensures r.Some? ==> Contains(contentType, r.value)
  {
    match FirstMediaChar(contentType)
    case None => None
    case Some(i) =>
      var s := contentType[i..];
      var n := MediaRun(s);
      var r := CharsetParam(s[n..]);
      if r.Some? then
        OccursInSuffix(s, r.value, n);
        OccursInSuffix(contentType, r.value, i);
        assert IndexOf(contentType, r.value).Some?;
        r
      else r
  }

  /** A run after `;`, blanks and eight more characters occurs in `s` where it was read. */
  lemma ParamValueOccurs(s: string, n: nat)
    requires s != [] && 8 + n <= |SkipSpaces(s[1..])|
    ensures OccursAt(s, SkipSpaces(s[1..])[8..][..n], |s| - |SkipSpaces(s[1..])| + 8)
  {
    var q := SkipSpaces(s[1..]);
    assert q == s[|s| - |q|..] by {
      assert s[1..][|s[1..]| - |q|..] == q;
    }
    SuffixRunOccurs(s, q, 8, n);
  }

  /** A run inside a suffix of `s` occurs in `s`, shifted by where the suffix starts. */
  lemma SuffixRunOccurs(s: string, q: string, off: nat, n: nat)
    requires |q| <= |s| && q == s[|s| - |q|..]
    requires off + n <= |q|
    ensures OccursAt(s, q[off..][..n], |s| - |q| + off)
  {
    var at := |s| - |q| + off;
    assert s[at..at + n] == q[off..][..n];
  }

  lemma MediaRunPrefix(media: string, rest: string)
    requires forall j :: 0 <= j < |media| ==> IsMediaChar(media[j])
    requires rest == [] || !IsMediaChar(rest[0])
    ensures MediaRun(media + rest) == |media|
  {
    if media != [] {
      assert (media + rest)[1..] == media[1..] + rest;
      MediaRunPrefix(media[1..], rest);
    }
  }

  lemma SkipSpacesPrefix(gap: string, rest: string)
    requires forall j :: 0 <= j < |gap| ==> IsSpace(gap[j])
    requires rest == [] || !IsSpace(rest[0])
    ensures SkipSpaces(gap + rest) == rest
  {
    if gap != [] {
      assert (gap + rest)[1..] == gap[1..] + rest;
      SkipSpacesPrefix(gap[1..], rest);
    }
  }

  /**
   * `ct` read as the pattern reads it: text without media-type characters, a
   * whole run of them, `;`, blanks, `charset=` in any letter case, the whole
   * run of non-blank characters `cs`, and then nothing or a blank.
   */
  predicate CharsetDeclaration(ct: string, pre: string, media: string, gap: string, key: string, cs: string, rest: string) {
    && ct == pre + (media + (";" + (gap + (key + (cs + rest)))))
    && (forall j :: 0 <= j < |pre| ==> !IsMediaChar(pre[j]))
    && media != [] && (forall j :: 0 <= j < |media| ==> IsMediaChar(media[j]))
    && (forall j :: 0 <= j < |gap| ==> IsSpace(gap[j]))
    && |key| == 8 && Lower(key) == "charset="
    && cs != [] && (forall j :: 0 <= j < |cs| ==> !IsSpace(cs[j]))
    && (rest == [] || IsSpace(rest[0]))
  }

  /** A Content-Type declares a charset exactly when it reads as such a declaration of it. */
  lemma CharsetDeclared(ct: string, cs: string)
    ensures ContentTypeCharset(ct) == Some(cs) <==>
              exists pre, media, gap, key, rest :: CharsetDeclaration(ct, pre, media, gap, key, cs, rest)
  {
    if ContentTypeCharset(ct) == Some(cs) {
      var pre, media, gap, key, rest := DeclarationOf(ct);
      assert CharsetDeclaration(ct, pre, media, gap, key, cs, rest);
    }
    if exists pre, media, gap, key, rest :: CharsetDeclaration(ct, pre, media, gap, key, cs, rest) {
      var pre, media, gap, key, rest :| CharsetDeclaration(ct, pre, media, gap, key, cs, rest);
      DeclaredCharset(pre, media, gap, key, cs, rest);
    }
  }

  /** The pieces a declared charset was read from. */
  lemma DeclarationOf(ct: string) returns (pre: string, media: string, gap: string, key: string, rest: string)
    requires ContentTypeCharset(ct).Some?
    ensures CharsetDeclaration(ct, pre, media, gap, key, ContentTypeCharset(ct).value, rest)
  {
    var i := FirstMediaChar(ct).value;
    var s := ct[i..];
    var n := MediaRun(s);
    var g, m := ParamPieces(s[n..]);
    assert s[n..][1..][g..][8..][..m] == ContentTypeCharset(ct).value;
    pre, media, gap, key, rest := DeclarationFromCuts(ct, i, n, g, m);
  }

  /** Where `CharsetParam` cut its capture: after `;`, `g` blanks and the eight letters of the key, a run of `m` non-blanks. */
  lemma ParamPieces(p: string) returns (g: nat, m: nat)
    requires CharsetParam(p).Some?
    ensures p != [] && p[0] == ';'
    ensures g + 8 <= |p[1..]| && forall j :: 0 <= j < g ==> IsSpace(p[1..][j])
    ensures var q := p[1..][g..]; Lower(q[..8]) == "charset=" && 0 < m <= |q[8..]|
    ensures var c := p[1..][g..][8..]; (forall j :: 0 <= j < m ==> !IsSpace(c[j])) && (m < |c| ==> IsSpace(c[m]))
    ensures p[1..][g..][8..][..m] == CharsetParam(p).value
  {
    var q := SkipSpaces(p[1..]);
    g := |p[1..]| - |q|;
    m := NonSpaceRun(q[8..]);
    assert q == p[1..][g..];
  }

  /** The pieces between the cuts the pattern makes, when each has the characters the pattern wants there. */
  lemma DeclarationFromCuts(ct: string, i: nat, n: nat, g: nat, m: nat)
      returns (pre: string, media: string, gap: string, key: string, rest: string)
    requires i < |ct| && 0 < n < |ct[i..]| && ct[i..][n] == ';'
    requires forall j :: 0 <= j < i ==> !IsMediaChar(ct[j])
    requires forall j :: 0 <= j < n ==> IsMediaChar(ct[i..][j])
    requires var p1 := ct[i..][n..][1..]; g + 8 <= |p1| && forall j :: 0 <= j < g ==> IsSpace(p1[j])
    requires var q := ct[i..][n..][1..][g..]; Lower(q[..8]) == "charset=" && 0 < m <= |q[8..]|
    requires var c := ct[i..][n..][1..][g..][8..]; (forall j :: 0 <= j < m ==> !IsSpace(c[j])) && (m < |c| ==> IsSpace(c[m]))
    ensures var q := ct[i..][n..][1..][g..];
            CharsetDeclaration(ct, pre, media, gap, key, q[8..][..m], rest)
  {
    var s := ct[i..];
    var p := s[n..];
    var q := p[1..][g..];
    pre, media, gap, key, rest := ct[..i], s[..n], p[1..][..g], q[..8], q[8..][m..];
    var cs := q[8..][..m];
    assert ct == pre + (media + (";" + (gap + (key + (cs + rest))))) by {
      DeclarationGlue(ct, i, n, g, m);
    }
    CutsClasses(ct, i, n, g);
    CutsTail(q[8..], m);
  }

  /** The run up to the cut is non-blank, and what follows starts with a blank if anything. */
  lemma CutsTail(c: string, m: nat)
    requires m <= |c| && (forall j :: 0 <= j < m ==> !IsSpace(c[j])) && (m < |c| ==> IsSpace(c[m]))
    ensures forall j :: 0 <= j < |c[..m]| ==> !IsSpace(c[..m][j])
    ensures c[m..] == [] || IsSpace(c[m..][0])
  {
    assert forall j :: 0 <= j < |c[..m]| ==> c[..m][j] == c[j];
  }

  /** The first three pieces keep the character classes their cuts were made by. */
  lemma CutsClasses(ct: string, i: nat, n: nat, g: nat)
    requires i < |ct| && n < |ct[i..]|
    requires forall j :: 0 <= j < i ==> !IsMediaChar(ct[j])
    requires forall j :: 0 <= j < n ==> IsMediaChar(ct[i..][j])
    requires var p1 := ct[i..][n..][1..]; g <= |p1| && forall j :: 0 <= j < g ==> IsSpace(p1[j])
    ensures forall j :: 0 <= j < |ct[..i]| ==> !IsMediaChar(ct[..i][j])
    ensures forall j :: 0 <= j < |ct[i..][..n]| ==> IsMediaChar(ct[i..][..n][j])
    ensures var p1 := ct[i..][n..][1..]; forall j :: 0 <= j < |p1[..g]| ==> IsSpace(p1[..g][j])
  {
    assert forall j :: 0 <= j < |ct[..i]| ==> ct[..i][j] == ct[j];
    assert forall j :: 0 <= j < |ct[i..][..n]| ==> ct[i..][..n][j] == ct[i..][j];
    var p1 := ct[i..][n..][1..];
    assert forall j :: 0 <= j < |p1[..g]| ==> p1[..g][j] == p1[j];
  }

  /** Cutting `ct` at the given lengths and gluing the pieces back gives `ct`. */
  lemma DeclarationGlue(ct: string, i: nat, n: nat, g: nat, m: nat)
    requires i + n < |ct| && ct[i + n] == ';'
    requires g + 8 + m <= |ct| - i - n - 1
    ensures var s := ct[i..]; var p := s[n..]; var q := p[1..][g..];
            ct == ct[..i] + (s[..n] + (";" + (p[1..][..g] + (q[..8] + (q[8..][..m] + q[8..][m..])))))
  {
    var s := ct[i..];
    var p := s[n..];
    var q := p[1..][g..];
    assert q[8..] == q[8..][..m] + q[8..][m..];
    assert q == q[..8] + q[8..];
    assert p[1..] == p[1..][..g] + q;
    assert p == ";" + p[1..];
    assert s == s[..n] + p;
    assert ct == ct[..i] + s;
  }

  /** Reading a declaration finds the charset it declares. */
  lemma DeclaredCharset(pre: string, media: string, gap: string, key: string, cs: string, rest: string)
    requires CharsetDeclaration(pre + (media + (";" + (gap + (key + (cs + rest))))), pre, media, gap, key, cs, rest)
    ensures ContentTypeCharset(pre + (media + (";" + (gap + (key + (cs + rest)))))) == Some(cs)
  {
    var ct := pre + (media + (";" + (gap + (key + (cs + rest)))));
    var t := media + (";" + (gap + (key + (cs + rest))));
    FirstMediaCharAfter(pre, t);
    assert ct[|pre|..] == t;
    MediaRunPrefix(media, ";" + (gap + (key + (cs + rest))));
    assert t[|media|..] == ";" + (gap + (key + (cs + rest)));
    DeclaredParam(gap, key, cs, rest);
  }

  /** The parameter part of a declaration yields its charset. */
  lemma DeclaredParam(gap: string, key: string, cs: string, rest: string)
    requires forall j :: 0 <= j < |gap| ==> IsSpace(gap[j])
    requires |key| == 8 && Lower(key) == "charset="
    requires cs != [] && (forall j :: 0 <= j < |cs| ==> !IsSpace(cs[j])) && (rest == [] || IsSpace(rest[0]))
    ensures CharsetParam(";" + (gap + (key + (cs + rest)))) == Some(cs)
  {
    assert (";" + (gap + (key + (cs + rest))))[1..] == gap + (key + (cs + rest));
    CharsetKeyStart(key);
    SkipSpacesPrefix(gap, key + (cs + rest));
    assert (key + (cs + rest))[..8] == key && (key + (cs + rest))[8..] == cs + rest;
    NonSpaceRunPrefix(cs, rest);
    assert (cs + rest)[..|cs|] == cs;
  }

  lemma FirstMediaCharAfter(pre: string, t: string)
    requires forall j :: 0 <= j < |pre| ==> !IsMediaChar(pre[j])
    requires t != [] && IsMediaChar(t[0])
    ensures FirstMediaChar(pre + t) == Some(|pre|)
  {
    if pre != [] {
      assert (pre + t)[1..] == pre[1..] + t;
      FirstMediaCharAfter(pre[1..], t);
    }
  }

  /** `charset=` in any letter case starts with `c` or `C`, not with a blank. */
  lemma CharsetKeyStart(key: string)
    requires |key| == 8 && Lower(key) == "charset="
    ensures !IsSpace(key[0])
  {
    assert LowerChar(key[0]) == Lower(key)[0] == 'c';
  }

  lemma NonSpaceRunPrefix(cs: string, rest: string)
    requires forall j :: 0 <= j < |cs| ==> !IsSpace(cs[j])
    requires rest == [] || IsSpace(rest[0])
    ensures NonSpaceRun(cs + rest) == |cs|
  {
    if cs != [] {
      assert (cs + rest)[1..] == cs[1..] + rest;
      NonSpaceRunPrefix(cs[1..], rest);
    }
  }

  lemma NonSpaceRunAll(s: string)
    requires forall j :: 0 <= j < |s| ==> !IsSpace(s[j])
    ensures NonSpaceRun(s) == |s|
  {
    if s != [] {
      NonSpaceRunAll(s[1..]);
    }
  }

  /**
   * The libraries behind `decodeBody`: `gzdecode`, the `<meta http-equiv>` and
   * `<?xml encoding=` captures, `mb_detect_encoding` (absent for `false`) and
   * `iconv` from a charset to UTF-8.
   */
  datatype Codecs = Codecs(
    gunzip: string -> string,
    metaCharset: string -> Option<string>,
    xmlEncoding: string -> Option<string>,
    detect: string -> Option<string>,
    convert: (string, string) -> string)

  /**
   * The charset fallback chain of `decodeBody`: the Content-Type parameter,
   * then the `<meta>` element, then the XML declaration, then the detector
   * (whose answer counts only when truthy). The `text/html` default is never
   * taken, because `strstr` returns a string or `false`, never the integer 0
   * it is compared with.
   */
  function SelectCharset(contentType: string, body: string, codecs: Codecs): (r: Option<string>)
    ensures ContentTypeCharset(contentType).Some? ==> r == ContentTypeCharset(contentType)
    ensures ContentTypeCharset(contentType).None? && codecs.metaCharset(body).Some? ==> r == codecs.metaCharset(body)
    ensures ContentTypeCharset(contentType).None? && codecs.metaCharset(body).None? && codecs.xmlEncoding(body).Some? ==>
              r == codecs.xmlEncoding(body)
    ensures ContentTypeCharset(contentType).None? && codecs.metaCharset(body).None? && codecs.xmlEncoding(body).None? ==>
              (r.Some? <==> codecs.detect(body).Some? && Truthy(codecs.detect(body).value)) &&
              (r.Some? ==> r == codecs.detect(body))
    ensures r.None? ==>
              ContentTypeCharset(contentType).None? && codecs.metaCharset(body).None? && codecs.xmlEncoding(body).None?
  {
    var fromHeader := ContentTypeCharset(contentType);
    if fromHeader.Some? then fromHeader
    else if codecs.metaCharset(body).Some? then codecs.metaCharset(body)
    else if codecs.xmlEncoding(body).Some? then codecs.xmlEncoding(body)
    else
      match codecs.detect(body)
      case Some(e) => if Truthy(e) then Some(e) else None
      case None => None
  }

  /**
   * `decodeBody`: the (possibly gunzipped) body, which replaces the stored one,
   * and the decoded text: converted from the selected charset unless that is
   * UTF-8 in any letter case or there is none, in which case it is the body trimmed.
   */
  function DecodeBody(contentType: string, contentEncoding: string, body: string, codecs: Codecs): (r: (string, string))
    ensures Lower(contentEncoding) == "gzip" ==> r.0 == codecs.gunzip(body)
    ensures Lower(contentEncoding) != "gzip" ==> r.0 == body
    ensures var cs := SelectCharset(contentType, r.0, codecs);
              (cs.None? || Upper(cs.value) == "UTF-8") ==> r.1 == Trim(r.0)
    ensures var cs := SelectCharset(contentType, r.0, codecs);
              cs.Some? && Upper(cs.value) != "UTF-8" ==> r.1 == codecs.convert(cs.value, r.0)
  {
    var b := if Lower(contentEncoding) == "gzip" then codecs.gunzip(body) else body;
    var charset := SelectCharset(contentType, b, codecs);
    if charset.Some? && Upper(charset.value) != "UTF-8" then (b, codecs.convert(charset.value, b))
    else (b, Trim(b))
  }

  /**
   * A Content-Type that declares UTF-8, in any letter case, makes the decoded
   * body the (possibly gunzipped) body trimmed, whatever the libraries do.
   */
  lemma Utf8DeclaredTrims(contentType: string, contentEncoding: string, body: string, codecs: Codecs, cs: string)
    requires ContentTypeCharset(contentType) == Some(cs) && Upper(cs) == "UTF-8"
    ensures var b := if Lower(contentEncoding) == "gzip" then codecs.gunzip(body) else body;
            DecodeBody(contentType, contentEncoding, body, codecs) == (b, Trim(b))
  {
  }

  /** `text/plain; charset=UTF-8` with the body `hello` decodes to `hello`. */
  lemma PlainUtf8Example(contentType: string, body: string, codecs: Codecs)
    requires contentType == "text/plain; charset=UTF-8" && body == "hello"
    ensures DecodeBody(contentType, "", body, codecs) == ("hello", "hello")
  {
    PlainUtf8Decodes(contentType, "", "UTF-8", body, codecs);
    HelloTrimmed();
  }

  lemma PlainUtf8Decodes(contentType: string, contentEncoding: string, cs: string, body: string, codecs: Codecs)
    requires contentType == "text/plain; charset=UTF-8" && contentEncoding == "" && cs == "UTF-8"
    ensures DecodeBody(contentType, contentEncoding, body, codecs) == (body, Trim(body))
  {
    PlainUtf8Charset(contentType);
    Utf8Upper();
    assert Lower(contentEncoding) != "gzip" by {
      assert |Lower(contentEncoding)| == 0;
    }
    Utf8DeclaredTrims(contentType, contentEncoding, body, codecs, cs);
  }

  lemma Utf8Upper()
    ensures Upper("UTF-8") == "UTF-8"
  {
    UpperFixed("UTF-8");
  }

  lemma HelloTrimmed()
    ensures Trim("hello") == "hello"
  {
    TrimClean("hello");
  }

  lemma PlainUtf8Charset(contentType: string)
    requires contentType == "text/plain; charset=UTF-8"
    ensures ContentTypeCharset(contentType) == Some("UTF-8")
  {
    assert contentType == "" + ("text/plain" + (";" + (" " + ("charset=" + ("UTF-8" + "")))));
    assert Lower("charset=") == "charset=";
    DeclaredCharset("", "text/plain", " ", "charset=", "UTF-8", "");
  }

  /** `sid=abc123; Path=/; HttpOnly` gives the cookie `sid` = `abc123` with `Path` = `/` and `HttpOnly` = `""`. */
  lemma SidExample(value: string)
    requires value == "sid=abc123; Path=/; HttpOnly"
    ensures ParseSetCookie(value) == Some(map["name" := "sid", "value" := "abc123", "Path" := "/", "HttpOnly" := ""])
  {
    assert value == "sid" + "=" + "abc123" + "; Path=" + "/" + "; " + "HttpOnly";
    assert WellFormedPair(("sid", "abc123"));
    assert '=' !in "HttpOnly" && !IsSpace('H');
    LooseEqualsPlain("HttpOnly", "sid");
    SessionCookie("sid", "abc123", "/", "HttpOnly");
  }
}
