/**
 * FetcherDefault: fetches one resource over HTTPS, rotating user agents,
 * setting configured headers and captured cookies, reading the body up to a
 * ceiling, and mapping every failure to an error result instead of throwing.
 *
 * The network is an input: an `Exchange` says how far the request got and
 * what the server and the JDK returned at each step.
 */
module Fetcher {
  import opened Wrappers
  import opened Bytes
  import opened BodyRead
  import opened RequestHeaders
  import UserAgents
  import Rotation

  const CONNECT_TIMEOUT: int := 5000
  const READ_TIMEOUT: int := 10000
  const DEFAULT_ERROR_CODE: int := 400
  const NOT_FOUND_CODE: int := 404
  const TRUNCATED: string := "X-Content-Truncated"

  /** The status the fetcher writes on a resource; `Unfetched` stands for any earlier state. */
  datatype ResourceStatus = Unfetched | Fetched | Error

  /** A crawl resource: its URL and the status the fetcher updates. */
  class Resource {
    const url: string
    var status: ResourceStatus

    constructor (url: string)
      ensures this.url == url && status == Unfetched
    {
      this.url := url;
      status := Unfetched;
    }
  }

  /** The result of one fetch attempt, linked to the resource it came from. */
  datatype FetchedData = FetchedData(
    content: seq<byte>,
    contentType: Option<string>,
    statusCode: int,
    headers: map<string, seq<string>>,
    resource: Resource)

  /**
   * What the server sent once the stream was open: the chunks `read`
   * returned, how the stream ended, and the exception, if any, that the
   * try-with-resources `close()` of the stream threw. When `read` has
   * already thrown, that exception is the one reported and a failing
   * `close()` is suppressed.
   */
  datatype Body =
    | InputFailed(kind: FailureKind)                  // getInputStream threw
    | Stream(chunks: seq<Chunk>, end: StreamEnd, closeFailure: Option<FailureKind>)

  /**
   * How far one request got. `OpenFailed` covers everything before the
   * connection is stored at line 147: a malformed URL, an I/O error in
   * openConnection, and the ClassCastException the HttpsURLConnection cast
   * raises for a URL that is not HTTPS.
   */
  datatype Exchange =
    | OpenFailed(kind: FailureKind)
    | StatusFailed(kind: FailureKind)                 // getResponseCode threw
    | Responded(code: int, contentType: Option<string>, headers: map<string, seq<string>>, body: Body)

  /** The response headers, with `X-Content-Truncated: true` added when reading stopped at the ceiling. */
  function ResultHeaders(headers: map<string, seq<string>>, truncated: bool): (r: map<string, seq<string>>)
    ensures truncated ==> TRUNCATED in r && r[TRUNCATED] == ["true"]
    ensures !truncated ==> r == headers
    ensures forall k :: k != TRUNCATED ==> (k in r <==> k in headers)
    ensures forall k :: k in headers && (k != TRUNCATED || !truncated) ==> k in r && r[k] == headers[k]
  {
    if truncated then headers[TRUNCATED := ["true"]] else headers
  }

  /**
   * The read loop ran to completion: the stream opened and `read` did not
   * throw before the loop ended. This is the point (line 192) at which the
   * resource is marked FETCHED.
   */
  predicate ReadCompleted(exchange: Exchange) {
    && exchange.Responded?
    && exchange.body.Stream?
    && ReadSpec(exchange.body.chunks, exchange.body.end).Read?
  }

  /**
   * The outcome of fetch(resource) once the request is sent: the content
   * read, the declared content type, the status code read at line 172 and
   * the response headers, or the exception that escaped.
   */
  function FetchResult(exchange: Exchange, resource: Resource): (r: Result<FetchedData, FailureKind>)
    ensures r.Success? <==> ReadCompleted(exchange) && exchange.body.closeFailure.None?
    ensures r.Success? ==>
              var read := ReadSpec(exchange.body.chunks, exchange.body.end);
              && r.value.resource == resource
              && r.value.statusCode == exchange.code
              && r.value.contentType == exchange.contentType
              && r.value.content == read.content
              && r.value.headers == ResultHeaders(exchange.headers, read.truncated)
    ensures r.Success? ==> r.value.content <= Flatten(exchange.body.chunks)
    ensures r.Success? && |r.value.content| < CONTENT_LIMIT ==>
              r.value.content == Flatten(exchange.body.chunks) && r.value.headers == exchange.headers
    ensures r.Success? && |r.value.content| >= CONTENT_LIMIT ==>
              TRUNCATED in r.value.headers && r.value.headers[TRUNCATED] == ["true"]
    ensures exchange.OpenFailed? || exchange.StatusFailed? ==> r == Failure(exchange.kind)
    ensures exchange.Responded? && exchange.body.InputFailed? ==> r == Failure(exchange.body.kind)
    ensures exchange.Responded? && exchange.body.Stream?
            && ReadSpec(exchange.body.chunks, exchange.body.end).ReadFailed? ==>
              r == Failure(ReadSpec(exchange.body.chunks, exchange.body.end).kind)
    ensures ReadCompleted(exchange) && exchange.body.closeFailure.Some? ==>
              r == Failure(exchange.body.closeFailure.value)
  {
    match exchange
    case OpenFailed(kind) => Failure(kind)
    case StatusFailed(kind) => Failure(kind)
    case Responded(code, contentType, headers, body) =>
      match body
      case InputFailed(kind) => Failure(kind)
      case Stream(chunks, end, closeFailure) =>
        match ReadSpec(chunks, end)
        case ReadFailed(kind) => Failure(kind)
        case Read(content, truncated) =>
          if closeFailure.Some? then Failure(closeFailure.value)
          else Success(FetchedData(content, contentType, code, ResultHeaders(headers, truncated), resource))
  }

  /** The status code apply reports for an exception: 404 for FileNotFoundException, else 400. */
  function ErrorStatusCode(kind: FailureKind): (code: int)
    ensures code == NOT_FOUND_CODE <==> kind == NotFound
    ensures code == DEFAULT_ERROR_CODE <==> kind == Other
  {
    match kind
    case NotFound => NOT_FOUND_CODE
    case Other => DEFAULT_ERROR_CODE
  }

  /**
   * What apply returns: the fetched data, or for any exception an empty
   * result with content type "" and the status code of that exception.
   * Either way the result is linked to the resource.
   */
  function Applied(exchange: Exchange, resource: Resource): (d: FetchedData)
    ensures d.resource == resource
    ensures FetchResult(exchange, resource).Success? ==> d == FetchResult(exchange, resource).value
    ensures FetchResult(exchange, resource).Failure? ==>
              && d.content == []
              && d.contentType == Some("")
              && d.headers == map[]
              && (d.statusCode == NOT_FOUND_CODE <==> FetchResult(exchange, resource).error == NotFound)
              && (d.statusCode == DEFAULT_ERROR_CODE <==> FetchResult(exchange, resource).error == Other)
  {
    match FetchResult(exchange, resource)
    case Success(data) => data
    case Failure(kind) => FetchedData([], Some(""), ErrorStatusCode(kind), map[], resource)
  }

  /** What init reads from the configuration. */
  datatype Configuration = Configuration(
    agents: UserAgents.AgentSource,
    headers: Option<map<string, string>>)

  class FetcherDefault {
    var userAgents: Option<seq<string>>
    var userAgentIndex: nat
    var httpHeaders: Option<map<string, string>>
    var httpCookies: Option<seq<Cookie>>
    var urlConn: Connection?

    /** The agent list as getUserAgent sees it: an unset list behaves as an empty one. */
    function Agents(): seq<string>
      reads this
    {
      if userAgents.Some? then userAgents.value else []
    }

    /** The rotation index points into the agent list whenever that list is non-empty. */
    ghost predicate Valid()
      reads this
    {
      Rotation.InRange(Agents(), userAgentIndex)
    }

    /** A new fetcher: nothing configured, index 0. */
    constructor ()
      ensures Valid()
      ensures userAgents == None && userAgentIndex == 0 && httpHeaders == None
      ensures httpCookies == None && urlConn == null
    {
      userAgents := None;
      userAgentIndex := 0;
      httpHeaders := None;
      httpCookies := None;
      urlConn := null;
    }

    /**
     * init(context, pluginId): installs the configured user-agent list and
     * headers. An unreadable agent file fails before anything changes; an
     * absent key leaves the corresponding field as it was.
     */
    method Init(conf: Configuration) returns (err: Option<UserAgents.InitError>)
      requires Valid() && userAgentIndex == 0
      modifies this`userAgents, this`httpHeaders
      ensures Valid()
      ensures err.Some? <==> UserAgents.ConfiguredAgents(conf.agents).Failure?
      ensures err.Some? ==> userAgents == old(userAgents) && httpHeaders == old(httpHeaders)
      ensures err.None? ==>
                userAgents == UserAgents.ConfiguredAgents(conf.agents).value || conf.agents.NotConfigured?
      ensures err.None? && conf.agents.NotConfigured? ==> userAgents == old(userAgents)
      ensures err.None? ==> httpHeaders == if conf.headers.Some? then conf.headers else old(httpHeaders)
    {
      match UserAgents.ConfiguredAgents(conf.agents)
      case Failure(e) =>
        return Some(e);
      case Success(agents) =>
        if agents.Some? {
          userAgents := agents;
        }
        if conf.headers.Some? {
          httpHeaders := conf.headers;
        }
        return None;
    }

    /**
     * getUserAgent: the agent at the current index, advancing the index
     * modulo the list length; nothing, and no change, for an empty or unset list.
     */
    method GetUserAgent() returns (agent: Option<string>)
      requires Valid()
      modifies this`userAgentIndex
      ensures Valid()
      ensures Rotation.Rotated(agent, userAgentIndex) == Rotation.Step(Agents(), old(userAgentIndex))
      ensures |Agents()| > 0 ==>
                agent == Some(Agents()[old(userAgentIndex)])
                && userAgentIndex == (old(userAgentIndex) + 1) % |Agents()|
      ensures |Agents()| == 0 ==> agent == None && userAgentIndex == old(userAgentIndex)
    {
      if userAgents.None? || |userAgents.value| == 0 {
        return None;
      }
      agent := Some(userAgents.value[userAgentIndex]);
      userAgentIndex := (userAgentIndex + 1) % |userAgents.value|;
    }

    /** The login POST stores the cookie store's cookies once its response code has been read. */
    method CaptureCookies(stored: seq<Cookie>)
      modifies this`httpCookies
      ensures httpCookies == Some(stored)
    {
      httpCookies := Some(stored);
    }

    /**
     * fetch(resource). Once the connection is open: configured headers,
     * then one rotation step whose agent (if any) overwrites `User-Agent`,
     * then the timeouts, then one `Cookie` per captured cookie; then the
     * response is read. Once the read loop completes the resource is marked
     * FETCHED, before the stream is closed. Nothing is consumed when the
     * connection cannot be opened.
     */
    method Fetch(resource: Resource, exchange: Exchange) returns (r: Result<FetchedData, FailureKind>)
      requires Valid()
      modifies this`userAgentIndex, this`urlConn, resource`status
      ensures Valid()
      ensures r == FetchResult(exchange, resource)
      ensures resource.status == if ReadCompleted(exchange) then Fetched else old(resource.status)
      ensures exchange.OpenFailed? ==> userAgentIndex == old(userAgentIndex) && urlConn == old(urlConn)
      ensures !exchange.OpenFailed? ==>
                var step := Rotation.Step(Agents(), old(userAgentIndex));
                && userAgentIndex == step.index
                && urlConn != null && fresh(urlConn)
                && urlConn.requestProperties == RequestProperties(httpHeaders, step.agent, httpCookies)
                && urlConn.connectTimeout == CONNECT_TIMEOUT
                && urlConn.readTimeout == READ_TIMEOUT
    {
      if exchange.OpenFailed? {
        return Failure(exchange.kind);
      }
      var conn := new Connection();
      urlConn := conn;
      if httpHeaders.Some? {
        SetConfigured(conn, httpHeaders.value);
      }
      assert conn.requestProperties == Configured(httpHeaders);
      var userAgentValue := GetUserAgent();
      if userAgentValue.Some? {
        conn.SetRequestProperty(USER_AGENT, userAgentValue.value);
      }
      conn.SetTimeouts(CONNECT_TIMEOUT, READ_TIMEOUT);
      if httpCookies.Some? {
        AddCookies(conn, httpCookies.value);
      }

      if exchange.StatusFailed? {
        return Failure(exchange.kind);
      }
      var responseCode := exchange.code;
      if exchange.body.InputFailed? {
        return Failure(exchange.body.kind);
      }
      var read := ReadBody(exchange.body.chunks, exchange.body.end);
      if read.ReadFailed? {
        return Failure(read.kind);
      }
      var fetchedData := FetchedData(read.content, exchange.contentType, responseCode,
                                     ResultHeaders(exchange.headers, read.truncated), resource);
      resource.status := Fetched;
      if exchange.body.closeFailure.Some? {
        return Failure(exchange.body.closeFailure.value);
      }
      return Success(fetchedData);
    }

    /**
     * apply(resource): never fails. The resource always ends up FETCHED or
     * ERROR and linked to the result; one rotation step is consumed, and a
     * fresh connection carrying the request headers is left in `urlConn`,
     * exactly when the connection was opened.
     */
    method Apply(resource: Resource, exchange: Exchange) returns (d: FetchedData)
      requires Valid()
      modifies this`userAgentIndex, this`urlConn, resource`status
      ensures Valid()
      ensures d == Applied(exchange, resource)
      ensures d.resource == resource
      ensures resource.status == if FetchResult(exchange, resource).Success? then Fetched else Error
      ensures userAgentIndex ==
                if exchange.OpenFailed? then old(userAgentIndex)
                else Rotation.Step(Agents(), old(userAgentIndex)).index
      ensures exchange.OpenFailed? ==> urlConn == old(urlConn)
      ensures !exchange.OpenFailed? ==>
                var step := Rotation.Step(Agents(), old(userAgentIndex));
                && urlConn != null && fresh(urlConn)
                && urlConn.requestProperties == RequestProperties(httpHeaders, step.agent, httpCookies)
                && urlConn.connectTimeout == CONNECT_TIMEOUT
                && urlConn.readTimeout == READ_TIMEOUT
    {
      var r := Fetch(resource, exchange);
      match r
      case Success(data) =>
        d := data;
      case Failure(kind) =>
        var statusCode := DEFAULT_ERROR_CODE;
        if kind == NotFound {
          statusCode := NOT_FOUND_CODE;
        }
        d := FetchedData([], Some(""), statusCode, map[], resource);
        resource.status := Error;
    }
  }

  /**
   * The HTTP status does not decide success: a response of any code whose
   * short body reads to the end and whose stream closes cleanly comes back
   * as that code with the whole body and the server's headers, and the
   * resource is marked FETCHED.
   */
  lemma AnyStatusFetched(code: int, contentType: Option<string>, headers: map<string, seq<string>>,
                         chunks: seq<Chunk>, resource: Resource)
    requires |Flatten(chunks)| < CONTENT_LIMIT
    ensures var exchange := Responded(code, contentType, headers, Stream(chunks, Eof, None));
            && ReadCompleted(exchange)
            && Applied(exchange, resource) == FetchedData(Flatten(chunks), contentType, code, headers, resource)
  {
  }

  /**
   * The error mapping of apply as the crawl sees it: whatever happens, the
   * result carries a status code; a failure is 404 or 400 with no content,
   * and a success carries the server's own code.
   */
  lemma AppliedStatusCode(exchange: Exchange, resource: Resource)
    ensures var d := Applied(exchange, resource);
            if FetchResult(exchange, resource).Success? then exchange.Responded? && d.statusCode == exchange.code
            else d.statusCode in {NOT_FOUND_CODE, DEFAULT_ERROR_CODE} && d.content == []
  {
  }
}
