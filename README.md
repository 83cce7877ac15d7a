# FetcherDefault, modelled in Dafny

This project models the decision logic of Sparkler's default fetcher,
`FetcherDefault`. The fetcher fetches one crawl resource over HTTPS. On the
way it:

- rotates through a configured list of user agents;
- sets the configured request headers and any cookies captured at login;
- reads the response body in 4096-byte chunks up to a 100 MiB ceiling, and
  flags the result when it stops at that ceiling;
- turns every exception into an error result with status 404 or 400.

It also builds the login form body that is posted to a login page.

The network is not modelled. An `Exchange` value stands in for it: it says
how far a request got and what the server and the JDK returned at each
step. The stages are:

- a failure before the connection exists;
- a failure reading the status code;
- a response whose stream fails to open;
- a response whose stream delivers a sequence of chunks, then ends or throws,
  and whose try-with-resources `close()` either succeeds or throws.

The parsed login page is a sequence of elements in document order, each with
its attributes.

Modules:

- `Sequences`: repeat-freedom and first occurrence, shared by the modules below.
- `UserAgents`: the `init` pipeline for the agent list. File lines are
  trimmed (Java `String.trim`), blank and `#` lines are dropped, then the
  list is deduplicated in first-seen order.
- `Rotation`: one step of `getUserAgent` as a function, and the round-robin
  lemmas.
- `RequestHeaders`: a `Connection` class holding the request properties
  (header name to values; `set` replaces, `add` appends), the loops that
  fill it, and the `RequestProperties` function stating the result.
- `BodyRead`: the bounded read loop (`ReadBody`) and its specification
  `ReadSpec`.
- `FormEncoding`: `URLEncoder.encode(s, "UTF-8")`, the
  application/x-www-form-urlencoded serializer of section 5.2 of the WHATWG URL
  Standard (the content type HTML 4.01 section 17.13.4 names for form
  submission), with the form decoder of section
  5.1 of that standard (keeping empty pieces between `&`), a UTF-8 decoder and
  round-trip proofs.
- `LoginForm`: `getFormParams`, finding the form fields and joining the body.
- `Fetcher`: the `Resource` class, `FetchedData`, the `Exchange` input and the
  `FetcherDefault` class with `Init`, `GetUserAgent`, `Fetch` and `Apply`.

Facts about the code that the model makes explicit:

- Truncation is checked with `size >= CONTENT_LIMIT` after whole chunks
  (line 181). Truncated content therefore holds between `CONTENT_LIMIT` and
  `CONTENT_LIMIT + 4095` bytes, and a body of exactly `CONTENT_LIMIT` bytes is
  flagged truncated (`BodyRead.LongBodyFlagged`, `BodyRead.TruncationBound`).
- The status code never decides success. A response of any code whose
  stream opens, reads and closes comes back FETCHED with that code
  (`Fetcher.AnyStatusFetched`). Whether an HTTP error status throws is
  decided by `getInputStream` in the JDK; the model takes it from the
  `Exchange` input.
- The resource is marked FETCHED at line 192, before the stream is closed. If
  `close()` then throws, `apply` turns the result into a 400 or 404 error and
  marks the resource ERROR.
- The login POST captures the cookie store whenever it yields a response code,
  whatever the code is (line 269). `logOut` never clears the cookies.
- `getUserAgent` reads the index outside the `synchronized` block (line 132).
- A plain `http://` URL fails with 400 before any header is set: the cast to
  `HttpsURLConnection` at line 147 throws, and `Exchange.OpenFailed` covers
  that case.
- `getFormParams` encodes the credentials but not the field names
  (lines 301-302). A field name holding `+` or `%XY` is read back by a form
  parser under another name (`LoginForm.PlusInFieldNameMisread`).

## Model

| member | source | states |
|---|---|---|
| `UserAgents.Trim` | sparkler-api/src/main/java/edu/usc/irds/sparkler/util/FetcherDefault.java:79 | the trimmed line is the slice after the leading chars at or below U+0020, only such chars follow it, and it neither starts nor ends with one |
| `UserAgents.TrimAll` | sparkler-api/src/main/java/edu/usc/irds/sparkler/util/FetcherDefault.java:79 | one trimmed line per input line, position by position |
| `UserAgents.KeepFilter` | sparkler-api/src/main/java/edu/usc/irds/sparkler/util/FetcherDefault.java:80 | a line survives the filter exactly when it is non-empty and does not start with `#` |
| `UserAgents.KeepFilterOrder` | sparkler-api/src/main/java/edu/usc/irds/sparkler/util/FetcherDefault.java:78-81 | filtering keeps the relative order of first occurrences |
| `UserAgents.Clean` | sparkler-api/src/main/java/edu/usc/irds/sparkler/util/FetcherDefault.java:78-81 | the lines after trimming and filtering are exactly the trimmed lines that are non-empty and do not start with `#` |
| `UserAgents.Dedup` | sparkler-api/src/main/java/edu/usc/irds/sparkler/util/FetcherDefault.java:89-90 | the deduplicated list has no repeats and exactly the elements of its input |
| `UserAgents.DedupFirstSeenOrder` | sparkler-api/src/main/java/edu/usc/irds/sparkler/util/FetcherDefault.java:89-90 | entries appear in the order of their first occurrence in the input |
| `UserAgents.DedupOfDistinct` | sparkler-api/src/main/java/edu/usc/irds/sparkler/util/FetcherDefault.java:90 | a list without repeats passes through the LinkedHashSet unchanged |
| `UserAgents.DedupIdempotent` | sparkler-api/src/main/java/edu/usc/irds/sparkler/util/FetcherDefault.java:90 | deduplicating twice equals deduplicating once |
| `UserAgents.Normalise` | sparkler-api/src/main/java/edu/usc/irds/sparkler/util/FetcherDefault.java:78-90 | the agents built from a file have no repeats and are exactly the kept trimmed lines |
| `UserAgents.NormaliseWellFormed` | sparkler-api/src/main/java/edu/usc/irds/sparkler/util/FetcherDefault.java:78-90 | every agent from a file is a trimmed, non-empty, non-`#` line; no agent repeats; the agents are exactly the kept trimmed lines |
| `UserAgents.NormaliseFirstSeenOrder` | sparkler-api/src/main/java/edu/usc/irds/sparkler/util/FetcherDefault.java:78-90 | the agents from a file keep the order in which each first occurs among the trimmed lines |
| `UserAgents.ConfiguredAgents` | sparkler-api/src/main/java/edu/usc/irds/sparkler/util/FetcherDefault.java:69-91 | an absent key leaves the list unset, a missing file gives the empty list, an inline list becomes its LinkedHashSet deduplication (`Dedup`, first-seen order), a readable file becomes its trimmed, filtered and deduplicated lines (`Normalise`), and only an unreadable file fails |
| `Rotation.Step` | sparkler-api/src/main/java/edu/usc/irds/sparkler/util/FetcherDefault.java:128-137 | a step yields an agent exactly when the list is non-empty, keeps the index in `[0, n)`, and leaves it unchanged for an empty list |
| `Rotation.RotationsAt` | sparkler-api/src/main/java/edu/usc/irds/sparkler/util/FetcherDefault.java:132-134 | call `j` after starting at index `i` returns entry `(i + j) mod n` |
| `Rotation.EmptyNeverRotates` | sparkler-api/src/main/java/edu/usc/irds/sparkler/util/FetcherDefault.java:129-131 | with an empty or unset list every call returns null |
| `Rotation.RoundRobin` | sparkler-api/src/main/java/edu/usc/irds/sparkler/util/FetcherDefault.java:128-137 | from index 0, `n` calls return the list in order and call `n + 1` returns the first entry again |
| `Rotation.NoRepeatWithinCycle` | sparkler-api/src/main/java/edu/usc/irds/sparkler/util/FetcherDefault.java:128-137 | on a repeat-free list, any `n` consecutive calls return `n` different agents |
| `RequestHeaders.Connection.constructor` | sparkler-api/src/main/java/edu/usc/irds/sparkler/util/FetcherDefault.java:147 | a fresh connection has no request properties |
| `RequestHeaders.Connection.SetRequestProperty` | sparkler-api/src/main/java/edu/usc/irds/sparkler/util/FetcherDefault.java:157 | setting a header replaces all its values by the one given |
| `RequestHeaders.Connection.AddRequestProperty` | sparkler-api/src/main/java/edu/usc/irds/sparkler/util/FetcherDefault.java:167 | adding a header appends one value after the existing ones |
| `RequestHeaders.Connection.SetTimeouts` | sparkler-api/src/main/java/edu/usc/irds/sparkler/util/FetcherDefault.java:162-163 | the connect and read timeouts take the given values |
| `RequestHeaders.Configured` | sparkler-api/src/main/java/edu/usc/irds/sparkler/util/FetcherDefault.java:148-149 | after the forEach the properties are exactly the configured header names, each with its one configured value |
| `RequestHeaders.WithAgent` | sparkler-api/src/main/java/edu/usc/irds/sparkler/util/FetcherDefault.java:154-157 | a rotated agent becomes the only `User-Agent` value; with no agent nothing changes; every other header is untouched |
| `RequestHeaders.WithCookies` | sparkler-api/src/main/java/edu/usc/irds/sparkler/util/FetcherDefault.java:165-170 | the `Cookie` values become the earlier ones followed by one line per cookie; `Cookie` is present exactly when it was or a cookie exists; every other header is untouched |
| `RequestHeaders.SetConfigured` | sparkler-api/src/main/java/edu/usc/irds/sparkler/util/FetcherDefault.java:148-149 | after the forEach each configured header has its one configured value |
| `RequestHeaders.AddCookies` | sparkler-api/src/main/java/edu/usc/irds/sparkler/util/FetcherDefault.java:165-170 | after the loop the `Cookie` values are the earlier ones followed by one `name=value` per cookie in list order |
| `RequestHeaders.RequestProperties` | sparkler-api/src/main/java/edu/usc/irds/sparkler/util/FetcherDefault.java:148-170 | the request carries exactly the configured headers, `User-Agent` and `Cookie`. A rotated agent replaces any configured `User-Agent`. Other configured headers keep their value. The `Cookie` values are any configured value followed by the cookie lines, so a configured `Cookie` stays as it is when no cookies were captured |
| `RequestHeaders.CookieLinesAt` | sparkler-api/src/main/java/edu/usc/irds/sparkler/util/FetcherDefault.java:166-167 | there is one `name=value` line per cookie, at the cookie's position |
| `BodyRead.FirstReach` | sparkler-api/src/main/java/edu/usc/irds/sparkler/util/FetcherDefault.java:179-186 | finds the first chunk count after which the buffer holds at least `CONTENT_LIMIT` bytes, or shows there is none |
| `BodyRead.FlattenPrefix` | sparkler-api/src/main/java/edu/usc/irds/sparkler/util/FetcherDefault.java:179-180 | the bytes of the first `k` chunks are a prefix of the body |
| `BodyRead.ReadSpec` | sparkler-api/src/main/java/edu/usc/irds/sparkler/util/FetcherDefault.java:174-189 | the content is a prefix of the body. It is flagged exactly when it holds at least `CONTENT_LIMIT` bytes. Unflagged content is the whole body. A read fails exactly when the stream throws before the ceiling is reached |
| `BodyRead.ReadBody` | sparkler-api/src/main/java/edu/usc/irds/sparkler/util/FetcherDefault.java:175-189 | the read loop returns chunks 1..k for the first k that reaches the ceiling, else the whole body or the stream's exception |
| `BodyRead.ShortBodyReadWhole` | sparkler-api/src/main/java/edu/usc/irds/sparkler/util/FetcherDefault.java:179-187 | a body shorter than the ceiling is read whole and not flagged |
| `BodyRead.LongBodyFlagged` | sparkler-api/src/main/java/edu/usc/irds/sparkler/util/FetcherDefault.java:181-182 | a body of at least `CONTENT_LIMIT` bytes, exactly that size included, is always flagged truncated |
| `BodyRead.TruncationBound` | sparkler-api/src/main/java/edu/usc/irds/sparkler/util/FetcherDefault.java:177-185 | truncated content holds at least `CONTENT_LIMIT` and fewer than `CONTENT_LIMIT + 4096` bytes |
| `FormEncoding.Utf8Char` | sparkler-api/src/main/java/edu/usc/irds/sparkler/util/FetcherDefault.java:301-302 | one byte exactly below U+0080, two exactly below U+0800, three exactly below U+10000, four above; the lead byte announces the length and the rest are continuation bytes |
| `FormEncoding.Utf8CharValue` | sparkler-api/src/main/java/edu/usc/irds/sparkler/util/FetcherDefault.java:301-302 | decoding the UTF-8 bytes of any char gives back its scalar value |
| `FormEncoding.Utf8` | sparkler-api/src/main/java/edu/usc/irds/sparkler/util/FetcherDefault.java:301-302 | each char takes one to four bytes, and the bytes are one per char exactly when the text is ASCII |
| `FormEncoding.EncodeChar` | sparkler-api/src/main/java/edu/usc/irds/sparkler/util/FetcherDefault.java:301-302 | an unreserved char stays as it is, a space becomes `+`, any other char becomes three escape chars per UTF-8 byte starting with `%`, made only of `%` and upper-case hex digits; only safe chars appear |
| `FormEncoding.PercentAllUpper` | sparkler-api/src/main/java/edu/usc/irds/sparkler/util/FetcherDefault.java:301-302 | a run of escapes holds only `%` and upper-case hex digits |
| `FormEncoding.Encode` | sparkler-api/src/main/java/edu/usc/irds/sparkler/util/FetcherDefault.java:301-302 | encoded text holds only unreserved chars, `+` and `%`, so never `&` or `=` |
| `FormEncoding.EncodeUnreserved` | sparkler-api/src/main/java/edu/usc/irds/sparkler/util/FetcherDefault.java:301-302 | text made of ASCII alphanumerics and `. - * _` is left unchanged |
| `FormEncoding.EncodeConcat` | sparkler-api/src/main/java/edu/usc/irds/sparkler/util/FetcherDefault.java:301-302 | encoding is char by char and distributes over concatenation |
| `FormEncoding.DecodeEncode` | sparkler-api/src/main/java/edu/usc/irds/sparkler/util/FetcherDefault.java:301-302 | decoding the encoding of a string gives back its UTF-8 bytes |
| `FormEncoding.DecodePlain` | sparkler-api/src/main/java/edu/usc/irds/sparkler/util/FetcherDefault.java:301 | text without `+` or `%` form-decodes to its own UTF-8 bytes, as an unencoded field name does |
| `LoginForm.FirstOfType` | sparkler-api/src/main/java/edu/usc/irds/sparkler/util/FetcherDefault.java:295-298 | finds the first element in document order whose `type` matches, or shows none does |
| `LoginForm.GetFormParams` | sparkler-api/src/main/java/edu/usc/irds/sparkler/util/FetcherDefault.java:290-317 | returns `T=enc(user)&P=enc(password)` with `T` and `P` the `name`s of the first text and first password elements. A page with no text element fails on that lookup first. One with no password element fails next |
| `LoginForm.ParamSplit` | sparkler-api/src/main/java/edu/usc/irds/sparkler/util/FetcherDefault.java:301-302 | a parameter whose name holds no `=` is cut at the `=` after the name into the name and the encoded value, and holds `&` only if the name does |
| `LoginForm.Join` | sparkler-api/src/main/java/edu/usc/irds/sparkler/util/FetcherDefault.java:308-316 | when no parameter holds `&`, cutting the joined text at every `&` gives back the parameters in order |
| `LoginForm.FormBody` | sparkler-api/src/main/java/edu/usc/irds/sparkler/util/FetcherDefault.java:300-316 | the body is the join of the user parameter and the password parameter |
| `LoginForm.EncodedHasNoDelimiters` | sparkler-api/src/main/java/edu/usc/irds/sparkler/util/FetcherDefault.java:301-302 | no encoded credential holds `&` or `=` |
| `LoginForm.FormBodyRoundTrip` | sparkler-api/src/main/java/edu/usc/irds/sparkler/util/FetcherDefault.java:300-316 | when neither field name holds `&`, `=`, `+` or `%`, a form parser reading the body gets back the UTF-8 bytes of both field names and of both credentials, in order |
| `LoginForm.FirstFieldDecoded` | sparkler-api/src/main/java/edu/usc/irds/sparkler/util/FetcherDefault.java:301 | whatever the user field name holds besides `&` and `=`, a form parser reads the first field as the form-decoding of the raw name |
| `LoginForm.PlusInFieldNameMisread` | sparkler-api/src/main/java/edu/usc/irds/sparkler/util/FetcherDefault.java:301 | a text field named `a+b` is read back by a form parser as `a b`, so unencoded names do not always round-trip |
| `LoginForm.ExamplePageFields` | sparkler-api/src/main/java/edu/usc/irds/sparkler/util/FetcherDefault.java:295-298 | on a page with text input `user` and password input `pass`, those are the detected fields |
| `LoginForm.ExampleEscape` | sparkler-api/src/main/java/edu/usc/irds/sparkler/util/FetcherDefault.java:302 | `!` is encoded as `%21` |
| `LoginForm.ExampleEncoding` | sparkler-api/src/main/java/edu/usc/irds/sparkler/util/FetcherDefault.java:302 | `s3cr3t!` is encoded as `s3cr3t%21` |
| `LoginForm.ExampleLoginBody` | sparkler-api/src/main/java/edu/usc/irds/sparkler/util/FetcherDefault.java:300-316 | fields `user`/`pass` with `alice`/`s3cr3t!` give `user=alice` and `pass=s3cr3t%21` joined by `&` |
| `Fetcher.ResultHeaders` | sparkler-api/src/main/java/edu/usc/irds/sparkler/util/FetcherDefault.java:194-197 | a truncated read adds `X-Content-Truncated: true` and keeps every other response header; an untruncated read keeps the response headers exactly |
| `Fetcher.FetchResult` | sparkler-api/src/main/java/edu/usc/irds/sparkler/util/FetcherDefault.java:172-199 | a fetch succeeds exactly when the stream opens, the read loop completes and the stream closes cleanly, whatever the status code. The success carries the response code, the declared content type, the read loop's content and the response headers with the marker exactly when truncated. Otherwise the result is the exception of the stage that failed: open, status, `getInputStream`, `read` or `close` |
| `Fetcher.ErrorStatusCode` | sparkler-api/src/main/java/edu/usc/irds/sparkler/util/FetcherDefault.java:207-210 | 404 exactly for FileNotFoundException, 400 exactly for any other exception |
| `Fetcher.Applied` | sparkler-api/src/main/java/edu/usc/irds/sparkler/util/FetcherDefault.java:203-217 | the result is always linked to the resource. A success is returned as is. A failure gives no content, content type `""` and status 404 or 400 by exception kind |
| `Fetcher.AppliedStatusCode` | sparkler-api/src/main/java/edu/usc/irds/sparkler/util/FetcherDefault.java:203-217 | every apply result has a status code: the server's on success, 404 or 400 with empty content on failure |
| `Fetcher.AnyStatusFetched` | sparkler-api/src/main/java/edu/usc/irds/sparkler/util/FetcherDefault.java:172-199 | a response of any status code whose short body reads to the end and closes cleanly gives that code, the whole body and the server's headers |
| `Fetcher.FetcherDefault.constructor` | sparkler-api/src/main/java/edu/usc/irds/sparkler/util/FetcherDefault.java:55-63 | a new fetcher has no agents, headers or cookies, and index 0 |
| `Fetcher.FetcherDefault.Init` | sparkler-api/src/main/java/edu/usc/irds/sparkler/util/FetcherDefault.java:66-96 | installs the configured agent list and headers. An absent key leaves its field as it was. An unreadable file fails and changes nothing |
| `Fetcher.FetcherDefault.GetUserAgent` | sparkler-api/src/main/java/edu/usc/irds/sparkler/util/FetcherDefault.java:128-137 | returns the agent at the index and advances the index mod `n`. An empty or unset list gives null and leaves the index alone. The index stays in range |
| `Fetcher.FetcherDefault.CaptureCookies` | sparkler-api/src/main/java/edu/usc/irds/sparkler/util/FetcherDefault.java:269 | the cookie store's cookies become the fetcher's cookie list |
| `Fetcher.FetcherDefault.Fetch` | sparkler-api/src/main/java/edu/usc/irds/sparkler/util/FetcherDefault.java:144-200 | once the connection is open, exactly one rotation step is taken and a fresh connection carries `RequestProperties` with timeouts 5000/10000. Nothing is consumed when opening fails. The result is `FetchResult`. The resource is marked FETCHED exactly when the read loop completes, before the stream is closed |
| `Fetcher.FetcherDefault.Apply` | sparkler-api/src/main/java/edu/usc/irds/sparkler/util/FetcherDefault.java:202-218 | never fails. The result is `Applied`, linked to the resource. The resource ends FETCHED when the fetch succeeds and ERROR otherwise. When the connection opened, one rotation step is taken and `urlConn` is a fresh connection carrying `RequestProperties` with timeouts 5000/10000; otherwise both are unchanged |

## Left out

- Network I/O is not modelled. This covers opening connections, `getResponseCode`, `getInputStream`, `GetPageContent`, `sendPost` and `logOut`. Each response is an `Exchange` input, and which HTTP statuses make `getInputStream` throw is part of that input.
- `init(context, pluginId, authUrl, username, password)` is not modelled: it only wires login I/O together. The model covers its decision parts: `getFormParams` (`LoginForm.GetFormParams`) and the cookie capture at line 269 (`Fetcher.FetcherDefault.CaptureCookies`).
- `logOut`, `sendPost` and `GetPageContent` are not modelled beyond the cookie capture. They perform I/O and print. Each also replaces `urlConn` with its own connection (lines 222, 244, 322); the model's `urlConn` follows only `fetch`. `logOut` does not clear the cookies.
- `fetch(Iterator)` is not modelled. It delegates to `StreamTransformer`, which is not part of this model.
- Concurrency is not modelled: the `synchronized` block in `getUserAgent` is treated as sequential code.
- Logging, `System.out` and the `CookieManager` set-up (lines 101-104) are not modelled.
- Jsoup's HTML parsing is not modelled. The page is a sequence of elements with attribute maps. Jsoup compares attribute values ignoring case and after trimming them; the model does not: `type` must match exactly.
- Request-property names are compared exactly. The JDK compares them ignoring case, so a configured `user-agent` header would also be replaced; the model does not capture that.
- The JDK's restricted request headers are not modelled. Unless `sun.net.http.allowRestrictedHeaders` is set, `setRequestProperty` silently drops headers such as `Host`, `Connection` and `Content-Length`, so a configured header with such a name never reaches the request. `RequestHeaders.Configured` keeps it.
- The JDK's checks on request-property values are not modelled. `setRequestProperty` rejects a value holding a CR or LF that is not followed by whitespace, and a null header name, so such a configured header would throw at line 149, before `getUserAgent` at line 154: no rotation step would be taken and `apply` would return 400. `Fetcher.FetcherDefault.Fetch` assumes every configured header is accepted.
- The `null` key that `getHeaderFields` uses for the status line is not modelled: header names are strings.
- The `FetchedData` class itself is not modelled: the `Fetcher.FetchedData` datatype holds the fields the fetcher sets. The model assumes `setHeaders` keeps a mutable copy (so the truncation marker can be added) and that an error result has no headers.
- Agent-file line splitting (`IOUtils.readLines`) and class-path lookup are not modelled: the file arrives as lines or as missing/unreadable. An inline list whose elements are not strings is not modelled.
- Chars are Unicode scalar values. URLEncoder's handling of unpaired UTF-16 surrogates is not modelled.
- `Fetcher.FetcherDefault.Init`: requires the rotation index to still be 0, as it is when `init` runs once on a new fetcher. A second `init` with a shorter list after some rotations would make line 132 throw; the model does not cover that.
- `LoginForm.FormBodyRoundTrip`: requires field names without `&`, `=`, `+` or `%`, because `getFormParams` does not encode the names (lines 301-302). `LoginForm.FirstFieldDecoded` and `LoginForm.PlusInFieldNameMisread` state what happens to other names.
