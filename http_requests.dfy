/**
 * The parts of an incoming HTTP request the analytics code reads, and the
 * client-address rule shared by the tracking view and the middleware.
 */
module HttpRequests {
  import opened Wrappers

  /**
   * A request: its verb, `path_info`, raw body, the `META` headers and the
   * `POST` form fields.
   */
  datatype Request = Request(verb: string, pathInfo: string, body: string,
                             meta: map<string, string>, post: map<string, string>)

  /** `s.split(',')[0]`: the text before the first comma, or all of `s` when it has none. */
  function FirstField(s: string): (r: string)
    ensures r <= s
    ensures ',' !in r
    ensures |r| < |s| ==> s[|r|] == ','
  {
    if s == [] || s[0] == ',' then [] else [s[0]] + FirstField(s[1..])
  }

  /** Joining a comma-free first address to the rest of a forwarding chain and splitting again gives that address back. */
  lemma {:induction false} FirstFieldOfChain(first: string, rest: string)
    requires ',' !in first
    ensures FirstField(first + [','] + rest) == first
  {
    if first != [] {
      assert (first + [','] + rest)[1..] == first[1..] + [','] + rest;
      FirstFieldOfChain(first[1..], rest);
    }
  }

  /**
   * `get_client_ip(request)`: the first entry of a non-empty
   * `X-Forwarded-For` header, untrimmed; otherwise `REMOTE_ADDR`, which may be absent.
   */
  function ClientIp(meta: map<string, string>): (ip: Option<string>)
    ensures Truthy(Get(meta, "HTTP_X_FORWARDED_FOR")) ==>
              ip == Some(FirstField(meta["HTTP_X_FORWARDED_FOR"]))
    ensures !Truthy(Get(meta, "HTTP_X_FORWARDED_FOR")) ==> ip == Get(meta, "REMOTE_ADDR")
  {
    var forwarded := Get(meta, "HTTP_X_FORWARDED_FOR");
    if Truthy(forwarded) then Some(FirstField(forwarded.value)) else Get(meta, "REMOTE_ADDR")
  }

  /** A forwarding chain `client, proxy, ...` yields the client's own address. */
  lemma ClientIpOfChain(meta: map<string, string>, client: string, proxies: string)
    requires ',' !in client
    requires "HTTP_X_FORWARDED_FOR" in meta && meta["HTTP_X_FORWARDED_FOR"] == client + [','] + proxies
    ensures ClientIp(meta) == Some(client)
  {
    FirstFieldOfChain(client, proxies);
  }
}
