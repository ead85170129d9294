# HTTP trace capture engine, modelled in Dafny

This project models the per-request trace engine of an HTTP tracing tool.
The engine records every outgoing HTTP request as one entry of an HTTP
Archive (HAR 1.2):

- An **exporter** owns one archive and hands out one **interceptor** per
  request.
- The interceptor is an event-driven state machine. Each lifecycle event
  updates a private timing record (integer nanoseconds) and the request's
  entry. The events are socket created, DNS lookup, connect, TLS
  handshake, request sent, first response byte, response end, and the
  request call and response headers.
- On completion the interceptor appends its entry to the exporter's
  archive.

The files:

- `text.dfy` (module `Text`): the JavaScript string operations the engine
  relies on, and the "throws" outcomes.
  - The string operations are `split`, `join`, `trim`, ASCII
    `toLowerCase` and `String(n)`.
  - Throws are modelled by the `Result` and `Outcome` datatypes.
  - Key lemmas: `split` undoes `join`, and what a split's first piece is.
- `har.dfy` (module `Har`): the HAR records, and the two constructors
  `createArchive` and `createEntry`.
- `headers.dfy` (module `Headers`): header conversion.
  - The reduce in `convertHeadersWithSize` is a method with a loop. It is
    proved against the specification functions `Converted` and `Size`.
  - Lemmas state what the computed size means: the two-byte terminator
    plus the `name: value\r\n` length of every emitted pair.
- `cookies.dfy` (module `Cookies`): cookie capture.
  - The request `Cookie` header is split on `"; "` and `=`.
  - Each `Set-Cookie` value is parsed by the attribute loop and its
    `switch`, loosely following section 4.1.1 of RFC 6265.
- `phases.dfy` (module `Phases`): the phase arithmetic.
  - Each phase is the event instant minus the instant at which the phase
    begins.
  - The main result is a telescoping proof: after any run of events in
    causal order, the start plus every clamped phase equals the last
    event's instant, and every measured phase is non-negative.
- `exporter.dfy` (module `Exporter`): the two classes `HarExporter` and
  `Interceptor`, one method per event handler.
  - Every handler is proved to keep the entry's timings a mirror of the
    internal record (`Valid`), and to update the record as `Phases.Step`
    says.
  - Three whole-exchange methods state the observable results:
    - one request exported;
    - entries in completion order;
    - a full TLS exchange whose entry time is the end instant minus the
      start.

Source behaviour reproduced as written:

- The response-cookie guard tests the `cookie` header, not `set-cookie`.
  Response cookies are therefore empty unless the response carries a
  `Cookie` header. When it does:
  - a missing `set-cookie` throws on `undefined.map`;
  - a single string or a number throws because it has no `map`.
- A cookie or attribute value is only the text between the first and the
  second `=`.
- A list-valued header yields one pair per element plus one more pair
  whose value is the comma-joined list. The size counts all of them.
- `ssl` subtracts the raw `connect`. A TLS handshake recorded without a
  `connect` therefore makes `ssl` one nanosecond too large, and a `send`
  at the same instant comes out as -1 (`Phases.SslWithoutConnect`).
- The form content type the request handler tests for is
  `application/x-wwww-form-urlencoded` (four w's).
- A fresh entry has no `postData`, so `onRequestFinish` throws whenever
  the request has a content type. The model returns
  `Failed(SetOnUndefined("mimeType"))` there, after `send` and `bodySize`
  are stored.
- A handler that throws part way keeps the updates made before the
  throw. For example, `onRequestCall` with a list-valued `cookie` header
  keeps the headers and query string it already stored.

Two constructors of the source are not the same code. The engine's own
`createEntry` (src/har-exporter.ts:327-378) and the one in src/har.ts
build the same record from the method, the URL text and the start
timestamp. Both are modelled by `Har.CreateEntry`. The same holds for the
two `createArchive` functions and `Har.CreateArchive`.

Times are integer nanoseconds throughout. The entry's timings hold the
nanosecond values that the source divides by 1 000 000. `entry.time` is
the nanosecond sum of the phases, with the four optional phases clamped
at 0 (`Har.TimeIsPhaseSum`).

## Model

| member | source | states |
|---|---|---|
| Har.CreateArchive | src/har.ts:3-15 | the archive has format version "1.2", the given creator name and version, and no pages or entries (the exporter's private copy at src/har-exporter.ts:45-57 builds the same) |
| Har.CreateEntry | src/har.ts:17-62 | the entry copies method and URL. It starts at time 0 with status 0 and empty texts and lists. `postData` is absent, both versions are "HTTP/1.1", and all sizes are -1. Content is `{size 0, mimeType ""}`. Nothing is measured and `time` is the sum of the phases (the interceptor's private copy at src/har-exporter.ts:327-378 builds the same) |
| Har.Counted | src/har-exporter.ts:161-164 | a negative phase (the -1 sentinel) counts as 0; any other phase counts as itself |
| Headers.AddHeader | src/har-exporter.ts:384-399 | the reducer appends this header's pairs and adds this header's size share |
| Headers.ConvertHeadersWithSize | src/har-exporter.ts:380-405 | the reduce over the header entries yields exactly `Converted(hs)` and `Size(hs)`, starting from no pairs and size 2 |
| Headers.ConvertedAppend | src/har-exporter.ts:383-404 | converting two header lists in sequence gives the two conversions concatenated, so order is preserved |
| Headers.SizeAppend | src/har-exporter.ts:383-404 | the size of two lists together is the sum of their sizes minus one 2-byte terminator |
| Headers.SizeIsWireSize | src/har-exporter.ts:385-396 | the size is 2 plus the `name: value\r\n` length of every emitted pair, including the extra comma-joined pair of a list header |
| Headers.ConvertedLength | src/har-exporter.ts:385-396 | the number of emitted pairs is k + 1 per list of k values and one per string or numeric header |
| Headers.SingleValuedHeaders | src/har-exporter.ts:395-396 | with no list values, the result is exactly one `{name, String(value)}` pair per header, in input order (a number gives its decimal digits) |
| Headers.ListHeaderSize | src/har-exporter.ts:386-395 | a list header of k values adds (name length + 4)·(k + 1) + 2·(total value length), plus k - 1 commas when k > 0 |
| Headers.Lookup | src/har-exporter.ts:96 | a header read yields undefined exactly when no entry has that name; otherwise it yields a value stored under that name |
| Cookies.SplitPair | src/har-exporter.ts:99 | `const [k, v] = s.split("=")`: k holds no `=`. v is undefined exactly when s holds no `=`, and then k is all of s. Otherwise v holds no `=` and `k=v` begins s, so k is the text before the first `=` and v the text up to the second |
| Cookies.CookieOfPiece | src/har-exporter.ts:99-100 | a request cookie has no attributes. Its name is the text before the piece's first `=` (the whole piece when there is none); its value is undefined exactly when the piece has no `=`, and otherwise is the `=`-free text that follows the name and its `=` |
| Cookies.CookiesOfPieces | src/har-exporter.ts:98-101 | the `map` gives one record per piece, in order, each the record of its piece |
| Cookies.RequestCookies | src/har-exporter.ts:96-101 | a missing, empty or 0 `cookie` header gives `[]`. A list or a non-zero number throws (`split` is not a function). Otherwise there is one record per `"; "` piece |
| Cookies.RequestCookiesRoundTrip | src/har-exporter.ts:96-101 | a header built from `=`/`;`-free name/value pairs joined by `"; "` parses back to exactly those pairs, in order |
| Cookies.RequestCookiesExample | src/har-exporter.ts:96-101 | `"a=1; b=2"` gives the records a=1 and b=2 |
| Cookies.PieceRoundTrip | src/har-exporter.ts:99 | a piece `n=v` with no other `=` gives name n and value v |
| Cookies.ValueStopsAtSecondEquals | src/har-exporter.ts:99 | for `n=v=rest`, the name is n and the value is v alone; the rest after the second `=` is lost |
| Cookies.ParseAttribute | src/har-exporter.ts:133-136 | an attribute's value is undefined exactly when it holds no `=`, and then its name is the whole text trimmed and lower-cased. Otherwise the value is the untrimmed, `=`-free text after the first `=`, and the name is the trimmed, lower-cased text before it |
| Cookies.AttributeOfPair | src/har-exporter.ts:133-136 | `k=v`, and `k=v=rest` alike, read as name `k` trimmed and lower-cased with the untrimmed value v |
| Cookies.ApplyAttribute | src/har-exporter.ts:137-152 | `path`, `domain` and `expires` take the attribute's value (undefined included), `httponly` and `secure` set their flag, and no other field, name or value changes |
| Cookies.SetCookieOf | src/har-exporter.ts:125-155 | the name is the text before the first `=` or `;` and holds neither. The value, when defined, holds neither, and name `=` value begins the text. A text without `;` is read as a plain pair |
| Cookies.ParseSetCookie | src/har-exporter.ts:117-156 | the map callback with its attribute loop and `switch` computes exactly `SetCookieOf(text)` |
| Cookies.AppliedKeepsPair | src/har-exporter.ts:129-153 | no attribute changes the cookie's name or value |
| Cookies.AbsentTextAttributeKept | src/har-exporter.ts:133-153 | path, domain or expires keeps its initial value when no attribute carries that name |
| Cookies.LastTextAttributeWins | src/har-exporter.ts:133-146 | path, domain or expires is the untrimmed value of the last attribute with that name |
| Cookies.FlagsFromAttributes | src/har-exporter.ts:147-151 | httpOnly (resp. secure) is set exactly when it was set before or some attribute is named `httponly` (resp. `secure`) |
| Cookies.UnknownAttributesIgnored | src/har-exporter.ts:137-152 | attributes whose names match no case leave the cookie unchanged |
| Cookies.PathAttribute | src/har-exporter.ts:134-139 | `" Path=p"` is read as attribute `path` with the untrimmed value p |
| Cookies.HttpOnlyAttribute | src/har-exporter.ts:134-148 | `" HttpOnly"` is read as attribute `httponly` with no value |
| Cookies.SetCookieWithPathAndHttpOnly | src/har-exporter.ts:117-156 | `n=v; Path=p; HttpOnly` parses to name n, value v, path p, httpOnly set, and everything else unset |
| Cookies.ResponseCookies | src/har-exporter.ts:115-117 | with no truthy `cookie` header the result is `[]`. With one, a missing `set-cookie` throws (`undefined.map`), a string or numeric one throws (`map` is not a function), and a successful parse has one record per `set-cookie` value |
| Cookies.ParseResponseCookies | src/har-exporter.ts:115-156 | the `map` over the `set-cookie` values computes exactly `ResponseCookies(hs)` |
| Phases.Initial | src/har-exporter.ts:74-83 | a new record has the given start and every phase unset (-1 for the four optional phases, 0 for the others). It reaches exactly the start instant |
| Phases.Step | src/har-exporter.ts:159-322 | an event changes only its own phase and never the start |
| Phases.StepBegins | src/har-exporter.ts:159-322 | the phase an event closes is the event's instant minus the instant at which the phase begins (the start plus the clamped earlier phases). For `ssl` this is off by `max(connect,0) - connect` |
| Phases.ElapsedSum | src/har-exporter.ts:187-194 | the instant reached is the start plus the four clamped optional phases plus send, wait and receive |
| Phases.StepReaches | src/har-exporter.ts:159-322 | an event after everything measured so far, and not earlier than the instant reached: its phase is the gap (so it is non-negative), and the record then reaches exactly the event's instant |
| Phases.RunFrom | src/har-exporter.ts:159-322 | a causal run continuing a record ends at the last event's instant. Every phase it measures is non-negative and every other phase is untouched |
| Phases.RunTelescopes | src/har-exporter.ts:170-185 | events in causal order from the start, with the TLS handshake only straight after connect: start + clamped phases == last instant, measured phases >= 0, unmeasured phases unset |
| Phases.SslWithoutConnect | src/har-exporter.ts:316-322 | a TLS handshake with `connect` unmeasured gives `ssl` = 1 and a simultaneous `send` = -1 |
| Exporter.TextOf | src/har-exporter.ts:109 | the stored content type is undefined exactly when the header is absent |
| Exporter.TextOr | src/har-exporter.ts:108 | the `location` header read with "" as its fallback: the fallback replaces exactly the falsy values (undefined, "" and 0); any other value is stored as the plain read stores it |
| Exporter.Decodable | src/har-exporter.ts:212-217 | `decompress.has(ce)` holds only for the strings gzip, br and deflate, so a decodable encoding always lies inside the `ce` branch |
| Exporter.WithBody | src/har-exporter.ts:201-210 | an unrecognised body stores nothing. A "utf8" body stores its UTF-8 text. A "binary" body stores its base64 text and the `base64` encoding. Size, compression and type are untouched |
| Exporter.AppendAll | src/har-exporter.ts:92-94 | pushing each pair in turn appends the whole list, in order |
| Exporter.ContentAtEnd | src/har-exporter.ts:196-246 | with no `content-encoding`, size is the body length. For gzip/br/deflate, size is the decoded length and compression is decoded minus encoded. A body that does not decompress leaves the content unchanged and fails with the unhandled `error` event, the only failure. Any other encoding leaves the content unchanged |
| Exporter.HarExporter.constructor | src/har-exporter.ts:24-27 | the exporter keeps the export path and starts with the empty archive of the given creator |
| Exporter.HarExporter.CreateInterceptor | src/har-exporter.ts:33-38 | a fresh interceptor for this exporter and URL, with a fresh entry and an initial record; the mirror invariant holds |
| Exporter.HarExporter.Export | src/har-exporter.ts:40-43 | the exported archive is the current archive |
| Exporter.Interceptor.constructor | src/har-exporter.ts:66-85 | the entry is `CreateEntry(method, url, started)` and the timings are `Initial(timing)` |
| Exporter.Interceptor.OnRequestCall | src/har-exporter.ts:87-102 | stores the converted request headers and their size, appends the URL's query parameters, and stores the request cookies or fails as `RequestCookies` does. Nothing else changes |
| Exporter.Interceptor.OnResponseReceived | src/har-exporter.ts:104-157 | stores the status, the status text, `HTTP/` + version, location or "", the content type, the converted headers and their size. Then it stores the response cookies or fails as `ResponseCookies` does |
| Exporter.Interceptor.OnResponseFirstByte | src/har-exporter.ts:159-168 | the `wait` update of `Step`, mirrored into the entry; nothing else changes |
| Exporter.Interceptor.OnResponseEnd | src/har-exporter.ts:170-247 | the `receive` update of `Step`. `time` is the sum of the phases (= reached instant - start) and `bodySize` is the body length. The content follows `ContentAtEnd`, and the handler fails exactly when a gzip/br/deflate body does not decompress |
| Exporter.Interceptor.OnRequestFinish | src/har-exporter.ts:253-282 | the `send` update of `Step`, and `bodySize` is the body length. It fails exactly when there is a content type and no `postData`. Otherwise it stores the type, the form or multipart parameters and the UTF-8 text; the parameters of any other type and the text of a non-"utf8" body stay as they were |
| Exporter.Interceptor.OnSocketCreate | src/har-exporter.ts:284-292 | the `blocked` update of `Step`; a socket with a port sets `connection` to its decimal text |
| Exporter.Interceptor.OnDNSLookup | src/har-exporter.ts:294-301 | stores the server address and makes the `dns` update of `Step` |
| Exporter.Interceptor.OnSocketConnect | src/har-exporter.ts:303-314 | stores the port as `connection` (when there is one) and makes the `connect` update of `Step` |
| Exporter.Interceptor.OnSecureConnect | src/har-exporter.ts:316-322 | the `ssl` update of `Step`, with the raw `connect` |
| Exporter.Interceptor.OnComplete | src/har-exporter.ts:324-326 | appends this entry at the end of the exporter's archive and changes nothing else in it |
| Exporter.ExportSingleRequest | __tests__/har-exporter.test.ts:11-42 | one request created, completed and exported: version 1.2, the given creator, exactly one entry with the given method and URL |
| Exporter.CompletionOrder | src/har-exporter.ts:33-37 | two requests completed in the reverse order of creation appear in completion order |
| Exporter.TraceExchange | src/har-exporter.ts:159-322 | a full TLS exchange through the handlers at non-decreasing instants: every phase is non-negative, `time` is the end instant minus the start, and `time` is the sum of the phases |
| Exporter.FullExchangeTimings | src/har-exporter.ts:159-322 | the seven updates of a full exchange reach exactly the last instant, with every phase non-negative |

## Left out

- File output: `export` writes the archive as JSON to the export path. The model returns the archive instead (`HarExporter.Export`).
- `onInstrumented` and `onRequestFirstByte` do nothing, so they are not modelled.
- The text/binary sniffer `getEncoding` is a foreign library. It is the function parameter `classify`.
- The UTF-8 and base64 conversions are not computed. The stored text is symbolic: `Utf8(bytes)` or `Base64(bytes)`.
- zlib decompression is a foreign library. Its output for the body is the parameter `decoded`, None when the body is not valid for its encoding. The model reports that case as the handler's `UnhandledEvent("error")` outcome; in the source the stream emits `error` with no listener after the handler has returned, which ends the process unless something else catches it.
- Exporter.Interceptor.OnResponseEnd: in the source, the decoded size, compression and text are stored by an asynchronous `end` callback after the handler returns, and reach the archive only through the shared entry object. The model stores them within the handler. Neither that ordering nor the aliasing of the pushed entry is modelled.
- The millisecond values (`Number(ns) / 1 000 000`) and the floating-point `time` sum are not modelled. The entry holds integer nanoseconds.
- The wall clock (`new Date().toISOString()`) and the monotonic clock are not read. They are given as the `started` text and integer instants.
- WHATWG `URL` parsing and `URLSearchParams` are not modelled. A URL is its text plus its query pairs (`Url`). The form parameters parsed from a body are the parameter `formParams`.
- Header objects are lists of (lower-case name, value) in `Object.entries` order. `getHeader`'s case-insensitive lookup is exact lookup on these lower-case names.
- Headers.HeaderValue: a numeric value is a non-negative integer (`Number(n)`). Negative, fractional and non-finite numbers, and their `String` forms, are not modelled.
- Exporter.TextOr: a numeric `location` or `content-type` is stored as its decimal text where the source stores the number itself; Node's parser gives only strings for these response headers.
- Exporter.Interceptor.OnResponseReceived: a list-valued `location` or `content-type` is stored as its comma-joined text. The source stores the array object itself, which Node never produces for these two headers.
- Exporter.Interceptor.OnRequestFinish: a list-valued or numeric content type is stored as its comma-joined or decimal text where the source stores the array or the number.
- `toLowerCase` is modelled on ASCII letters only, and `trim` on the ECMAScript white-space set. Full Unicode case mapping is not modelled.
- Cookie records of the request carry only name and value. The model's record also has the unset attributes and two false flags, which the source leaves out of the object.
- The interception wiring around Node's HTTP client, the proxy, the collection runner, the command line and the process hooks are not part of this model.
