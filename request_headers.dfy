/**
 * The request properties FetcherDefault.fetch puts on its connection: the
 * configured headers, then the rotated `User-Agent`, then one `Cookie` entry
 * per captured cookie. A property maps a header name to its values in order;
 * `setRequestProperty` replaces the values, `addRequestProperty` appends one.
 */
module RequestHeaders {
  import opened Wrappers

  const USER_AGENT: string := "User-Agent"
  const COOKIE: string := "Cookie"

  /** A cookie captured from the cookie store after login. */
  datatype Cookie = Cookie(name: string, value: string)

  type Properties = map<string, seq<string>>

  /** The values recorded for `key`, none when it is absent. */
  function Values(props: Properties, key: string): seq<string> {
    if key in props then props[key] else []
  }

  /** The `Cookie` value sent for one cookie: `name=value`. */
  function CookieLine(c: Cookie): string {
    c.name + "=" + c.value
  }

  /** The `Cookie` values sent for a list of cookies, in list order. */
  function CookieLines(cookies: seq<Cookie>): seq<string> {
    if |cookies| == 0 then []
    else CookieLines(cookies[..|cookies| - 1]) + [CookieLine(cookies[|cookies| - 1])]
  }

  /** The part of an HTTPS connection that the fetcher configures before sending. */
  class Connection {
    var requestProperties: Properties
    var connectTimeout: int
    var readTimeout: int

    /** A freshly opened connection carries no request properties and no timeouts. */
    constructor ()
      ensures requestProperties == map[] && connectTimeout == 0 && readTimeout == 0
    {
      requestProperties := map[];
      connectTimeout := 0;
      readTimeout := 0;
    }

    /** Replaces whatever values `key` had by the single value `value`. */
    method SetRequestProperty(key: string, value: string)
      modifies this`requestProperties
      ensures requestProperties == old(requestProperties)[key := [value]]
    {
      requestProperties := requestProperties[key := [value]];
    }

    /** Appends `value` to the values of `key`. */
    method AddRequestProperty(key: string, value: string)
      modifies this`requestProperties
      ensures requestProperties == old(requestProperties)[key := Values(old(requestProperties), key) + [value]]
    {
      requestProperties := requestProperties[key := Values(requestProperties, key) + [value]];
    }

    /** Sets both timeouts, in milliseconds. */
    method SetTimeouts(connect: int, read: int)
      modifies this`connectTimeout, this`readTimeout
      ensures connectTimeout == connect && readTimeout == read
    {
      connectTimeout := connect;
      readTimeout := read;
    }
  }

  /** The properties after `httpHeaders.forEach(urlConn::setRequestProperty)`. */
  function Configured(headers: Option<map<string, string>>): (r: Properties)
    ensures forall k :: k in r <==> headers.Some? && k in headers.value
    ensures forall k :: k in r ==> r[k] == [headers.value[k]]
  {
    match headers
    case None => map[]
    case Some(h) => map k | k in h :: [h[k]]
  }

  /** The properties after the rotated agent, when there is one, is set as `User-Agent`. */
  function WithAgent(props: Properties, agent: Option<string>): (r: Properties)
    ensures agent.Some? ==> USER_AGENT in r && r[USER_AGENT] == [agent.value]
    ensures agent.None? ==> r == props
    ensures forall k :: k != USER_AGENT ==> (k in r <==> k in props)
    ensures forall k :: k != USER_AGENT && k in props ==> r[k] == props[k]
  {
    match agent
    case None => props
    case Some(a) => props[USER_AGENT := [a]]
  }

  /** The properties after one `Cookie` value is added per captured cookie. */
  function WithCookies(props: Properties, cookies: Option<seq<Cookie>>): (r: Properties)
    ensures COOKIE in r <==> COOKIE in props || (cookies.Some? && |cookies.value| > 0)
    ensures Values(r, COOKIE) == Values(props, COOKIE) + if cookies.Some? then CookieLines(cookies.value) else []
    ensures forall k :: k != COOKIE ==> (k in r <==> k in props)
    ensures forall k :: k != COOKIE && k in props ==> r[k] == props[k]
  {
    if cookies.None? || |cookies.value| == 0 then props
    else props[COOKIE := Values(props, COOKIE) + CookieLines(cookies.value)]
  }

  /**
   * The request properties of a fetch. Configured headers are present with
   * their one value; a rotated agent replaces any configured `User-Agent`;
   * the cookies' `name=value` lines follow any configured `Cookie` value, in
   * cookie-list order; no other header is present.
   */
  function RequestProperties(headers: Option<map<string, string>>, agent: Option<string>,
                             cookies: Option<seq<Cookie>>): (r: Properties)
    ensures forall k :: k in r <==>
              (headers.Some? && k in headers.value)
              || (k == USER_AGENT && agent.Some?)
              || (k == COOKIE && cookies.Some? && |cookies.value| > 0)
    ensures agent.Some? ==> r[USER_AGENT] == [agent.value]
    ensures forall k :: k in r && k != COOKIE && (k != USER_AGENT || agent.None?) ==>
              headers.Some? && r[k] == [headers.value[k]]
    ensures Values(r, COOKIE) ==
              Values(Configured(headers), COOKIE) + if cookies.Some? then CookieLines(cookies.value) else []
  {
    WithCookies(WithAgent(Configured(headers), agent), cookies)
  }

  /** `CookieLines` on a list grown by one cookie grows by that cookie's line. */
  lemma CookieLinesSnoc(cookies: seq<Cookie>, i: nat)
    requires i < |cookies|
    ensures CookieLines(cookies[..i + 1]) == CookieLines(cookies[..i]) + [CookieLine(cookies[i])]
  {
    assert cookies[..i + 1][..i] == cookies[..i];
  }

  /** A cookie list yields exactly one `name=value` line per cookie, in order. */
  lemma {:induction false} CookieLinesAt(cookies: seq<Cookie>, i: nat)
    requires i < |cookies|
    ensures |CookieLines(cookies)| == |cookies|
    ensures CookieLines(cookies)[i] == CookieLine(cookies[i])
    decreases |cookies|
  {
    var n := |cookies| - 1;
    var pre := cookies[..n];
    if i < n {
      CookieLinesAt(pre, i);
    } else if n > 0 {
      CookieLinesAt(pre, 0);
    }
  }

  /** `httpHeaders.forEach(urlConn::setRequestProperty)`: each configured header is set once. */
  method SetConfigured(conn: Connection, headers: map<string, string>)
    modifies conn`requestProperties
    ensures conn.requestProperties == old(conn.requestProperties) + Configured(Some(headers))
  {
    var todo := headers.Keys;
    while todo != {}
      invariant todo <= headers.Keys
      invariant conn.requestProperties == old(conn.requestProperties) + map k | k in headers.Keys - todo :: [headers[k]]
      decreases todo
    {
      var k :| k in todo;
      conn.SetRequestProperty(k, headers[k]);
      todo := todo - {k};
    }
  }

  /** The loop over `httpCookies`: one `Cookie: name=value` added per cookie, in order. */
  method AddCookies(conn: Connection, cookies: seq<Cookie>)
    modifies conn`requestProperties
    ensures conn.requestProperties == WithCookies(old(conn.requestProperties), Some(cookies))
  {
    ghost var start := conn.requestProperties;
    for i := 0 to |cookies|
      invariant conn.requestProperties == WithCookies(start, Some(cookies[..i]))
    {
      CookieLinesSnoc(cookies, i);
      assert Values(conn.requestProperties, COOKIE) == Values(start, COOKIE) + CookieLines(cookies[..i]);
      conn.AddRequestProperty(COOKIE, CookieLine(cookies[i]));
      assert Values(start, COOKIE) + CookieLines(cookies[..i]) + [CookieLine(cookies[i])]
          == Values(start, COOKIE) + CookieLines(cookies[..i + 1]);
    }
    assert cookies[..|cookies|] == cookies;
  }
}
