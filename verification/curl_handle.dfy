/**
 * The cURL handle the client drives. `curl_setopt` stores an option in the
 * handle, where it stays for every later `curl_exec` until it is set again;
 * `curl_exec` performs one exchange. The network is replaced by a script of
 * canned exchanges, and every execution records the options it was made with.
 */
module Transport {
  import opened Dicts

  /** The options the client sets. */
  datatype CurlOpt =
    | ReturnTransfer | Header | Url | HttpGet | CustomRequest | Post | NoBody
    | Cookie | HttpHeader | PostFields | ConnectTimeout

  /** An option's value. A post body is either raw text or a field array (sent as multipart). */
  datatype OptValue =
    | Flag(on: bool)
    | Number(n: int)
    | Text(s: string)
    | Lines(lines: seq<string>)
    | Form(fields: Dict<string>)

  /**
   * One exchange: the status code `curl_getinfo` reports and the text
   * `curl_exec` returns (status line, headers and body of every response
   * received), or a failure with its `curl_errno`.
   */
  datatype Exchange = Delivered(code: int, raw: string) | Failed(errno: int)

  /** The next scripted exchange; once the script is used up, every attempt fails with errno 0. */
  function Next(replies: seq<Exchange>): (x: Exchange)
    ensures replies == [] ==> x == Failed(0)
    ensures replies != [] ==> x == replies[0]
  {
    if replies == [] then Failed(0) else replies[0]
  }

  /** The script after one exchange. */
  function Rest(replies: seq<Exchange>): (r: seq<Exchange>)
    ensures |r| == if replies == [] then 0 else |replies| - 1
    ensures replies != [] ==> replies == [replies[0]] + r
  {
    if replies == [] then [] else replies[1..]
  }

  /**
   * `curl_exec` returned something PHP's `== FALSE` does not hold for. With
   * `CURLOPT_RETURNTRANSFER` a delivered text is a string, and the strings `""`
   * and `"0"` compare equal to `FALSE`, so they count as failures.
   */
  predicate Delivers(x: Exchange) {
    x.Delivered? && x.raw != "" && x.raw != "0"
  }

  /** `curl_errno` after an exchange `Delivers` rejects: 0 when nothing failed at the transport level. */
  function ErrNo(x: Exchange): int {
    if x.Failed? then x.errno else 0
  }

  /** Options that extend earlier executions by one are those executions followed by it. */
  lemma PrefixExtended(sent: seq<map<CurlOpt, OptValue>>, first: map<CurlOpt, OptValue>, all: seq<map<CurlOpt, OptValue>>)
    requires sent + [first] <= all
    ensures |sent| < |all| && all[..|sent| + 1] == sent + [first]
  {
    assert all[..|sent| + 1] == (sent + [first])[..|sent| + 1];
  }

  class Handle {
    /** The options currently set. */
    var options: map<CurlOpt, OptValue>
    /** The exchanges still to come. */
    var replies: seq<Exchange>
    /** The options of every execution so far, oldest first. */
    var sent: seq<map<CurlOpt, OptValue>>

    /** `curl_init` followed by the two options both clients set at once. */
    constructor(script: seq<Exchange>)
      ensures options == map[ReturnTransfer := Number(1), Header := Number(1)]
      ensures replies == script && sent == []
    {
      options := map[ReturnTransfer := Number(1), Header := Number(1)];
      replies := script;
      sent := [];
    }

    /** `curl_setopt`: the option takes the value, every other option stays. */
    method SetOpt(o: CurlOpt, v: OptValue)
      modifies this
      ensures options == old(options)[o := v]
      ensures replies == old(replies) && sent == old(sent)
    {
      options := options[o := v];
    }

    /** `curl_exec`: the next scripted exchange, made with the current options. */
    method Exec() returns (x: Exchange)
      modifies this
      ensures x == Next(old(replies))
      ensures replies == Rest(old(replies))
      ensures sent == old(sent) + [old(options)]
      ensures options == old(options)
    {
      x := Next(replies);
      replies := Rest(replies);
      sent := sent + [options];
    }
  }
}
