/** The trace engine of src/har-exporter.ts: an exporter owning one archive,
    and one interceptor per request whose lifecycle handlers fill in that
    request's entry and, on completion, append it to the archive. */
module Exporter {
  import opened Text
  import opened Har
  import opened Headers
  import opened Cookies
  import Phases

  /** What the text/binary sniffer reports for a buffer: nothing, "utf8"
      or "binary". */
  datatype Sniffed = Unrecognised | Utf8Text | Binary

  /** A parsed URL: its serialisation and its query parameters, in order. */
  datatype Url = Url(href: string, searchParams: seq<NameValue>)

  /** The parts of an incoming response the handlers read. */
  datatype ResponseHead = ResponseHead(
    statusCode: int,
    statusMessage: string,
    httpVersion: string,
    headers: HeaderList)

  /** The content type the form branch tests for, spelled as in the source
      (four w's), so that a real form body never takes it. */
  const FormType: string := "application/x-wwww-form-urlencoded"

  const MultipartType: string := "multipart/form-data"

  /** The entry's copy of the internal timings: every phase, without the
      start instant. */
  function Mirror(ts: Phases.Timings): Timings
  {
    Timings(ts.blocked, ts.dns, ts.connect, ts.send, ts.wait, ts.receive, ts.ssl)
  }

  /** `headers[name] || fallback` for a header used as text: the fallback
      replaces exactly the falsy values (undefined, "" and 0), any other
      value is read as `headers[name]` is. */
  function TextOr(v: Option<HeaderValue>, fallback: string): (r: string)
    ensures !Truthy(v) ==> r == fallback
    ensures Truthy(v) ==> Some(r) == TextOf(v)
  {
    if Truthy(v) then StringOf(v.value) else fallback
  }

  /** `headers[name]` stored as an optional text. */
  function TextOf(v: Option<HeaderValue>): (r: Option<string>)
    ensures r.None? <==> v.None?
  {
    match v
    case None => None
    case Some(h) => Some(StringOf(h))
  }

  /** The keys of the `decompress` map: gzip, br and deflate. */
  const Decompressors: set<string> := {"gzip", "br", "deflate"}

  /** `decompress.has(ce)`: a `content-encoding` the engine knows how to
      decode. Only a string can be a key, and every key is non-empty, so a
      decodable encoding always takes the `ce` branch. */
  predicate Decodable(ce: Option<HeaderValue>)
    ensures Decodable(ce) ==> Truthy(ce) && ce.value.Single? && ce.value.text in Decompressors
  {
    ce.Some? && ce.value.Single? && ce.value.text in Decompressors
  }

  /** The body text stored for a buffer: its UTF-8 text when the sniffer
      says "utf8", its base64 text (and the `base64` encoding mark) when it
      says "binary", nothing otherwise. */
  function WithBody(c: Content, kind: Sniffed, buf: seq<byte>): (r: Content)
    ensures r.size == c.size && r.compression == c.compression && r.mimeType == c.mimeType
    ensures kind == Unrecognised ==> r == c
    ensures kind == Utf8Text ==> r.text == Some(Utf8(buf)) && r.encoding == c.encoding
    ensures kind == Binary ==> r.text == Some(Base64(buf)) && r.encoding == Some("base64")
  {
    match kind
    case Unrecognised => c
    case Utf8Text => c.(text := Some(Utf8(buf)))
    case Binary => c.(text := Some(Base64(buf)), encoding := Some("base64"))
  }

  /** The `for … of` loop that pushes each pair onto a list, in order. */
  method AppendAll(list: seq<NameValue>, pairs: seq<NameValue>) returns (r: seq<NameValue>)
    ensures r == list + pairs
  {
    r := list;
    for k := 0 to |pairs|
      invariant r == list + pairs[..k]
    {
      assert pairs[..k + 1] == pairs[..k] + [pairs[k]];
      r := r + [pairs[k]];
    }
    assert pairs[..|pairs|] == pairs;
  }

  /** The content bookkeeping of `onResponseEnd` for the given
      `content-encoding`: the size (and, for a decoded body, the
      compression), then the body text the sniffer allows. `decoded` is the
      decompressor's output, or None when the body does not decompress:
      then the stream emits `error` with no listener attached, its `end`
      callback never runs, and the content keeps its earlier size,
      compression and text. */
  method ContentAtEnd(content: Content, ce: Option<HeaderValue>, body: seq<byte>,
                      classify: seq<byte> -> Sniffed, decoded: Option<seq<byte>>)
    returns (c: Content, outcome: Outcome)
    ensures !Truthy(ce) ==> c == WithBody(content.(size := |body|), classify(body), body)
    ensures Decodable(ce) && decoded.Some? ==>
              c == WithBody(content.(size := |decoded.value|,
                                     compression := Some(|decoded.value| - |body|)),
                            classify(decoded.value), decoded.value)
    ensures Decodable(ce) && decoded.None? ==> c == content
    ensures Truthy(ce) && !Decodable(ce) ==> c == content
    ensures outcome.Failed? <==> Decodable(ce) && decoded.None?
    ensures outcome.Failed? ==> outcome.error == UnhandledEvent("error")
  {
    c, outcome := content, Completed;
    if !Truthy(ce) {
      c := c.(size := |body|);
      var enc := classify(body);
      if enc == Utf8Text {
        c := c.(text := Some(Utf8(body)));
      } else if enc == Binary {
        c := c.(text := Some(Base64(body)), encoding := Some("base64"));
      }
    } else if Decodable(ce) {
      if decoded.None? {
        return c, Failed(UnhandledEvent("error"));
      }
      var buf := decoded.value;
      c := c.(size := |buf|, compression := Some(|buf| - |body|));
      var enc := classify(buf);
      if enc == Utf8Text {
        c := c.(text := Some(Utf8(buf)));
      } else if enc == Binary {
        c := c.(text := Some(Base64(buf)), encoding := Some("base64"));
      }
    }
  }

  /** The exporter: it owns the archive that every completed request is
      appended to. */
  class HarExporter {
    const exportPath: string
    var archive: Archive

    /** `new HARExporter({name, version, exportPath})`: an empty archive
        naming the given creator. */
    constructor (name: string, version: string, exportPath: string)
      ensures this.exportPath == exportPath
      ensures archive == CreateArchive(name, version)
    {
      this.exportPath := exportPath;
      archive := CreateArchive(name, version);
    }

    /** `createInterceptor(method, url, timing)`: a fresh interceptor for
        one request, started at `timing` (nanoseconds); `started` is the
        ISO-8601 text of the wall-clock instant. The exporter itself is
        unchanged until the interceptor completes. */
    method CreateInterceptor(httpMethod: string, url: Url, timing: int, started: string)
      returns (i: Interceptor)
      ensures fresh(i) && i.exporter == this && i.url == url
      ensures i.timings == Phases.Initial(timing)
      ensures i.entry == CreateEntry(httpMethod, url.href, started)
      ensures i.Valid()
    {
      i := new Interceptor(this, httpMethod, url, timing, started);
    }

    /** `export()`: the archive as it would be written out. */
    method Export() returns (snapshot: Archive)
      ensures snapshot == archive
    {
      snapshot := archive;
    }
  }

  /** The interceptor of one request: its entry, the internal timings in
      nanoseconds, and the exporter its entry goes to on completion. */
  class Interceptor {
    const exporter: HarExporter
    const url: Url
    var entry: Entry
    var timings: Phases.Timings

    /** The entry's timings always mirror the internal ones. */
    ghost predicate Valid()
      reads this
    {
      entry.timings == Mirror(timings)
    }

    /** A new interceptor: a fresh entry for the request, and the start
        instant with every phase unset. */
    constructor (exporter: HarExporter, httpMethod: string, url: Url, timing: int, started: string)
      ensures this.exporter == exporter && this.url == url
      ensures entry == CreateEntry(httpMethod, url.href, started)
      ensures timings == Phases.Initial(timing)
      ensures Valid()
    {
      this.exporter := exporter;
      this.url := url;
      entry := CreateEntry(httpMethod, url.href, started);
      timings := Phases.Timings(timing, -1, -1, -1, 0, 0, 0, -1);
    }

    /** `onRequestCall`: the request's headers and their size, the URL's
        query parameters appended to the query string, and the request
        cookies. A list-valued `cookie` header makes the handler throw
        after the headers and query string are stored. */
    method OnRequestCall(headers: HeaderList) returns (outcome: Outcome)
      requires Valid()
      modifies this
      ensures Valid() && timings == old(timings)
      ensures entry.request.headers == Converted(headers)
      ensures entry.request.headersSize == Size(headers)
      ensures entry.request.queryString == old(entry.request.queryString) + url.searchParams
      ensures RequestCookies(Lookup(headers, "cookie")).Ok? ==>
                outcome == Completed &&
                entry.request.cookies == RequestCookies(Lookup(headers, "cookie")).value
      ensures RequestCookies(Lookup(headers, "cookie")).Threw? ==>
                outcome == Failed(RequestCookies(Lookup(headers, "cookie")).error) &&
                entry.request.cookies == old(entry.request.cookies)
      ensures entry == old(entry).(request := old(entry.request).(
                headers := entry.request.headers,
                headersSize := entry.request.headersSize,
                queryString := entry.request.queryString,
                cookies := entry.request.cookies))
    {
      var converted, size := ConvertHeadersWithSize(headers);
      var request := entry.request.(headers := converted, headersSize := size);
      var query := AppendAll(request.queryString, url.searchParams);
      request := request.(queryString := query);
      var cookies := RequestCookies(Lookup(headers, "cookie"));
      if cookies.Ok? {
        request := request.(cookies := cookies.value);
        outcome := Completed;
      } else {
        outcome := Failed(cookies.error);
      }
      entry := entry.(request := request);
    }

    /** `onResponseReceived`: the status line, the redirect target, the
        content type, the headers and their size, and the response
        cookies. The cookie parser can throw (see `ResponseCookies`); the
        other fields are stored before it runs. */
    method OnResponseReceived(res: ResponseHead) returns (outcome: Outcome)
      requires Valid()
      modifies this
      ensures Valid() && timings == old(timings)
      ensures entry.response.status == res.statusCode
      ensures entry.response.statusText == res.statusMessage
      ensures entry.response.httpVersion == "HTTP/" + res.httpVersion
      ensures entry.response.redirectURL == TextOr(Lookup(res.headers, "location"), "")
      ensures entry.response.content ==
                old(entry.response.content).(mimeType := TextOf(Lookup(res.headers, "content-type")))
      ensures entry.response.headers == Converted(res.headers)
      ensures entry.response.headersSize == Size(res.headers)
      ensures ResponseCookies(res.headers).Ok? ==>
                outcome == Completed &&
                entry.response.cookies == ResponseCookies(res.headers).value
      ensures ResponseCookies(res.headers).Threw? ==>
                outcome == Failed(ResponseCookies(res.headers).error) &&
                entry.response.cookies == old(entry.response.cookies)
      ensures entry == old(entry).(response := entry.response)
      ensures entry.response.bodySize == old(entry.response.bodySize)
    {
      var response := entry.response.(
        status := res.statusCode,
        statusText := res.statusMessage,
        httpVersion := "HTTP/" + res.httpVersion,
        redirectURL := TextOr(Lookup(res.headers, "location"), ""));
      response := response.(content := response.content.(mimeType := TextOf(Lookup(res.headers, "content-type"))));
      var converted, size := ConvertHeadersWithSize(res.headers);
      response := response.(headers := converted, headersSize := size);
      entry := entry.(response := response);
      var cookies := ParseResponseCookies(res.headers);
      match cookies
      case Ok(cs) =>
        entry := entry.(response := entry.response.(cookies := cs));
        outcome := Completed;
      case Threw(err) =>
        outcome := Failed(err);
    }

    /** `onResponseFirstByte`: `wait` is the instant minus the start, the
        clamped optional phases and `send`. */
    method OnResponseFirstByte(t: int)
      requires Valid()
      modifies this
      ensures Valid()
      ensures timings == Phases.Step(old(timings), Phases.Event(Phases.Wait, t))
      ensures entry == old(entry).(timings := entry.timings)
    {
      var blocked := if timings.blocked < 0 then 0 else timings.blocked;
      var dns := if timings.dns < 0 then 0 else timings.dns;
      var connect := if timings.connect < 0 then 0 else timings.connect;
      var ssl := if timings.ssl < 0 then 0 else timings.ssl;
      timings := timings.(wait := t - (timings.start + blocked + dns + connect + ssl + timings.send));
      entry := entry.(timings := entry.timings.(wait := timings.wait));
    }

    /** `onResponseEnd`: `receive` closes the timings and `time` becomes
        the sum of the phases; `bodySize` is the length received. Without
        a `content-encoding` the content size is that length; for gzip, br
        and deflate it is the length of `decoded` (the decompressor's
        output for `body`) and `compression` the difference; any other
        encoding leaves the content as it was. A body that does not
        decompress leaves the content as it was too, and the stream's
        unhandled `error` event is the outcome. */
    method OnResponseEnd(headers: HeaderList, body: seq<byte>, t: int,
                         classify: seq<byte> -> Sniffed, decoded: Option<seq<byte>>)
      returns (outcome: Outcome)
      requires Valid()
      modifies this
      ensures Valid()
      ensures timings == Phases.Step(old(timings), Phases.Event(Phases.Receive, t))
      ensures TimeIsPhaseSum(entry) && entry.time == Phases.Elapsed(timings) - timings.start
      ensures entry.response.bodySize == |body|
      ensures !Truthy(Lookup(headers, "content-encoding")) ==>
                entry.response.content ==
                WithBody(old(entry.response.content).(size := |body|), classify(body), body)
      ensures Decodable(Lookup(headers, "content-encoding")) && decoded.Some? ==>
                entry.response.content ==
                WithBody(old(entry.response.content).(size := |decoded.value|,
                                                      compression := Some(|decoded.value| - |body|)),
                         classify(decoded.value), decoded.value)
      ensures Truthy(Lookup(headers, "content-encoding")) &&
              (!Decodable(Lookup(headers, "content-encoding")) || decoded.None?) ==>
                entry.response.content == old(entry.response.content)
      ensures outcome.Failed? <==> Decodable(Lookup(headers, "content-encoding")) && decoded.None?
      ensures outcome.Failed? ==> outcome.error == UnhandledEvent("error")
      ensures entry == old(entry).(
                time := entry.time,
                timings := entry.timings,
                response := old(entry.response).(bodySize := |body|, content := entry.response.content))
    {
      var blocked := if timings.blocked < 0 then 0 else timings.blocked;
      var dns := if timings.dns < 0 then 0 else timings.dns;
      var connect := if timings.connect < 0 then 0 else timings.connect;
      var ssl := if timings.ssl < 0 then 0 else timings.ssl;
      var receive := t - (timings.start + blocked + dns + connect + ssl + timings.send + timings.wait);
      var time := blocked + dns + connect + ssl + entry.timings.send + entry.timings.wait + receive;
      var content;
      content, outcome := ContentAtEnd(entry.response.content, Lookup(headers, "content-encoding"),
                                       body, classify, decoded);
      timings := timings.(receive := receive);
      entry := entry.(
        time := time,
        timings := entry.timings.(receive := receive),
        response := entry.response.(bodySize := |body|, content := content));
      Phases.ElapsedSum(timings);
    }

    /** `onRequestFinish`: `send` is the instant minus the start and the
        clamped optional phases, and `bodySize` the length sent. With a
        content type, the handler writes into `postData`; a fresh entry has
        none, so it throws there. Had it one, the handler would store the
        content type, the form parameters (`formParams`, the pairs parsed
        from the body) for the form type, an empty list for multipart, and
        the UTF-8 text of a body the sniffer calls "utf8". */
    method OnRequestFinish(headers: HeaderList, body: seq<byte>, t: int,
                           classify: seq<byte> -> Sniffed, formParams: seq<NameValue>)
      returns (outcome: Outcome)
      requires Valid()
      modifies this
      ensures Valid()
      ensures timings == Phases.Step(old(timings), Phases.Event(Phases.Send, t))
      ensures entry.request.bodySize == |body|
      ensures outcome.Failed? <==>
                Truthy(Lookup(headers, "content-type")) && old(entry.request.postData).None?
      ensures outcome.Failed? ==> outcome.error == SetOnUndefined("mimeType")
      ensures !Truthy(Lookup(headers, "content-type")) || outcome.Failed? ==>
                entry.request.postData == old(entry.request.postData)
      ensures Truthy(Lookup(headers, "content-type")) && outcome.Completed? ==>
                entry.request.postData.Some? &&
                entry.request.postData.value.mimeType == StringOf(Lookup(headers, "content-type").value)
      ensures outcome.Completed? && Lookup(headers, "content-type") == Some(Single(FormType)) ==>
                entry.request.postData.value.params == Some(formParams)
      ensures outcome.Completed? && Lookup(headers, "content-type") == Some(Single(MultipartType)) ==>
                entry.request.postData.value.params == Some([])
      ensures outcome.Completed? && Truthy(Lookup(headers, "content-type")) &&
              Lookup(headers, "content-type") != Some(Single(FormType)) &&
              Lookup(headers, "content-type") != Some(Single(MultipartType)) ==>
                entry.request.postData.value.params == old(entry.request.postData).value.params
      ensures outcome.Completed? && Truthy(Lookup(headers, "content-type")) && classify(body) == Utf8Text ==>
                entry.request.postData.value.text == Some(Utf8(body))
      ensures outcome.Completed? && Truthy(Lookup(headers, "content-type")) && classify(body) != Utf8Text ==>
                entry.request.postData.value.text == old(entry.request.postData).value.text
      ensures entry == old(entry).(
                timings := entry.timings,
                request := old(entry.request).(bodySize := |body|, postData := entry.request.postData))
    {
      var blocked := if timings.blocked < 0 then 0 else timings.blocked;
      var dns := if timings.dns < 0 then 0 else timings.dns;
      var connect := if timings.connect < 0 then 0 else timings.connect;
      var ssl := if timings.ssl < 0 then 0 else timings.ssl;
      timings := timings.(send := t - (timings.start + blocked + dns + connect + ssl));
      entry := entry.(timings := entry.timings.(send := timings.send));
      entry := entry.(request := entry.request.(bodySize := |body|));

      outcome := Completed;
      var ct := Lookup(headers, "content-type");
      if Truthy(ct) {
        if entry.request.postData.None? {
          return Failed(SetOnUndefined("mimeType"));
        }
        var postData := entry.request.postData.value.(mimeType := StringOf(ct.value));
        if ct == Some(Single(FormType)) {
          postData := postData.(params := Some([]));
          for k := 0 to |formParams|
            invariant postData.params == Some(formParams[..k])
            invariant postData.mimeType == StringOf(ct.value)
            invariant postData.text == entry.request.postData.value.text
          {
            assert formParams[..k + 1] == formParams[..k] + [formParams[k]];
            postData := postData.(params := Some(postData.params.value + [formParams[k]]));
          }
          assert formParams[..|formParams|] == formParams;
        }
        if ct == Some(Single(MultipartType)) {
          postData := postData.(params := Some([]));
        }
        if classify(body) == Utf8Text {
          postData := postData.(text := Some(Utf8(body)));
        }
        entry := entry.(request := entry.request.(postData := Some(postData)));
      }
    }

    /** `onSocketCreate`: `blocked` is the instant minus the start; a
        socket with a port names the connection by that port's decimal
        text (`port` 0 stands for "no port"). */
    method OnSocketCreate(port: nat, t: int)
      requires Valid()
      modifies this
      ensures Valid()
      ensures timings == Phases.Step(old(timings), Phases.Event(Phases.Blocked, t))
      ensures entry.connection == if port == 0 then old(entry.connection) else Decimal(port)
      ensures entry == old(entry).(timings := entry.timings, connection := entry.connection)
    {
      timings := timings.(blocked := t - timings.start);
      entry := entry.(timings := entry.timings.(blocked := timings.blocked));
      if port != 0 {
        entry := entry.(connection := Decimal(port));
      }
    }

    /** `onDNSLookup`: the resolved address, and `dns` as the instant minus
        the start and the clamped `blocked`. */
    method OnDNSLookup(address: string, t: int)
      requires Valid()
      modifies this
      ensures Valid()
      ensures timings == Phases.Step(old(timings), Phases.Event(Phases.Dns, t))
      ensures entry == old(entry).(timings := entry.timings, serverIPAddress := address)
    {
      entry := entry.(serverIPAddress := address);
      var blocked := if timings.blocked < 0 then 0 else timings.blocked;
      timings := timings.(dns := t - (timings.start + blocked));
      entry := entry.(timings := entry.timings.(dns := timings.dns));
    }

    /** `onSocketConnect`: the connection's port, and `connect` as the
        instant minus the start and the clamped `blocked` and `dns`. */
    method OnSocketConnect(port: nat, t: int)
      requires Valid()
      modifies this
      ensures Valid()
      ensures timings == Phases.Step(old(timings), Phases.Event(Phases.Connect, t))
      ensures entry.connection == if port == 0 then old(entry.connection) else Decimal(port)
      ensures entry == old(entry).(timings := entry.timings, connection := entry.connection)
    {
      if port != 0 {
        entry := entry.(connection := Decimal(port));
      }
      var blocked := if timings.blocked < 0 then 0 else timings.blocked;
      var dns := if timings.dns < 0 then 0 else timings.dns;
      timings := timings.(connect := t - (timings.start + blocked + dns));
      entry := entry.(timings := entry.timings.(connect := timings.connect));
    }

    /** `onSecureConnect`: `ssl` as the instant minus the start, the
        clamped `blocked` and `dns`, and the raw `connect`. */
    method OnSecureConnect(t: int)
      requires Valid()
      modifies this
      ensures Valid()
      ensures timings == Phases.Step(old(timings), Phases.Event(Phases.Ssl, t))
      ensures entry == old(entry).(timings := entry.timings)
    {
      var blocked := if timings.blocked < 0 then 0 else timings.blocked;
      var dns := if timings.dns < 0 then 0 else timings.dns;
      timings := timings.(ssl := t - (timings.start + blocked + dns + timings.connect));
      entry := entry.(timings := entry.timings.(ssl := timings.ssl));
    }

    /** `onComplete`: the completion handler appends this entry at the end
        of the exporter's archive and changes nothing else. */
    method OnComplete()
      modifies exporter
      ensures exporter.archive.log.entries == old(exporter.archive.log.entries) + [entry]
      ensures exporter.archive == old(exporter.archive).(log := exporter.archive.log)
      ensures exporter.archive.log == old(exporter.archive.log).(entries := exporter.archive.log.entries)
    {
      var log := exporter.archive.log;
      exporter.archive := exporter.archive.(log := log.(entries := log.entries + [entry]));
    }
  }

  // ---------------------------------------------------------------------------
  // Whole exchanges

  /** One request created and completed, then exported: the archive names
      its creator and holds exactly one entry, with the request's method
      and URL. */
  method ExportSingleRequest(name: string, version: string, exportPath: string,
                             httpMethod: string, url: Url, timing: int, started: string)
    returns (snapshot: Archive)
    ensures snapshot.log.version == "1.2"
    ensures snapshot.log.creator == Creator(name, version)
    ensures |snapshot.log.entries| == 1
    ensures snapshot.log.entries[0].request.httpMethod == httpMethod
    ensures snapshot.log.entries[0].request.url == url.href
  {
    var exporter := new HarExporter(name, version, exportPath);
    var interceptor := exporter.CreateInterceptor(httpMethod, url, timing, started);
    interceptor.OnComplete();
    snapshot := exporter.Export();
  }

  /** Entries appear in completion order, not creation order: of two
      requests, the one completed first comes first. */
  method CompletionOrder(name: string, version: string, exportPath: string,
                         httpMethod: string, first: Url, second: Url, timing: int, started: string)
    returns (snapshot: Archive)
    ensures |snapshot.log.entries| == 2
    ensures snapshot.log.entries[0].request.url == second.href
    ensures snapshot.log.entries[1].request.url == first.href
  {
    var exporter := new HarExporter(name, version, exportPath);
    var a := exporter.CreateInterceptor(httpMethod, first, timing, started);
    var b := exporter.CreateInterceptor(httpMethod, second, timing, started);
    b.OnComplete();
    a.OnComplete();
    snapshot := exporter.Export();
  }

  /** A full exchange over a new TLS connection, with every lifecycle
      event at non-decreasing instants: every phase comes out
      non-negative, and the entry's time is exactly the end instant minus
      the start. */
  method TraceExchange(exporter: HarExporter, httpMethod: string, url: Url, started: string,
                       address: string, port: nat,
                       start: int, created: int, resolved: int, connected: int, secured: int,
                       sent: int, firstByte: int, ended: int,
                       body: seq<byte>, classify: seq<byte> -> Sniffed)
    returns (e: Entry)
    requires start <= created <= resolved <= connected <= secured <= sent <= firstByte <= ended
    ensures e.time == ended - start
    ensures e.timings.blocked >= 0 && e.timings.dns >= 0 && e.timings.connect >= 0
    ensures e.timings.ssl >= 0 && e.timings.send >= 0 && e.timings.wait >= 0
    ensures e.timings.receive >= 0
    ensures TimeIsPhaseSum(e)
  {
    var i := exporter.CreateInterceptor(httpMethod, url, start, started);
    i.OnSocketCreate(port, created);
    i.OnDNSLookup(address, resolved);
    i.OnSocketConnect(port, connected);
    i.OnSecureConnect(secured);
    var _ := i.OnRequestFinish([], body, sent, classify, []);
    i.OnResponseFirstByte(firstByte);
    var _ := i.OnResponseEnd([], body, ended, classify, Some(body));
    FullExchangeTimings(start, created, resolved, connected, secured, sent, firstByte, ended);
    e := i.entry;
  }

  /** The seven phase updates of a full exchange, one after another, end
      exactly at the last instant with every phase non-negative. */
  lemma FullExchangeTimings(start: int, created: int, resolved: int, connected: int, secured: int,
                            sent: int, firstByte: int, ended: int)
    requires start <= created <= resolved <= connected <= secured <= sent <= firstByte <= ended
    ensures var r := Phases.Step(Phases.Step(Phases.Step(Phases.Step(Phases.Step(Phases.Step(Phases.Step(
                       Phases.Initial(start),
                       Phases.Event(Phases.Blocked, created)), Phases.Event(Phases.Dns, resolved)),
                       Phases.Event(Phases.Connect, connected)), Phases.Event(Phases.Ssl, secured)),
                       Phases.Event(Phases.Send, sent)), Phases.Event(Phases.Wait, firstByte)),
                       Phases.Event(Phases.Receive, ended));
            Phases.Elapsed(r) == ended && forall p :: Phases.Get(r, p) >= 0
  {
    var es := [Phases.Event(Phases.Blocked, created), Phases.Event(Phases.Dns, resolved),
               Phases.Event(Phases.Connect, connected), Phases.Event(Phases.Ssl, secured),
               Phases.Event(Phases.Send, sent), Phases.Event(Phases.Wait, firstByte),
               Phases.Event(Phases.Receive, ended)];
    var t0 := Phases.Initial(start);
    var t1 := Phases.Step(t0, es[0]);
    Phases.StepReaches(t0, es[0]);
    var t2 := Phases.Step(t1, es[1]);
    Phases.StepReaches(t1, es[1]);
    var t3 := Phases.Step(t2, es[2]);
    Phases.StepReaches(t2, es[2]);
    var t4 := Phases.Step(t3, es[3]);
    Phases.StepReaches(t3, es[3]);
    var t5 := Phases.Step(t4, es[4]);
    Phases.StepReaches(t4, es[4]);
    var t6 := Phases.Step(t5, es[5]);
    Phases.StepReaches(t5, es[5]);
    var t7 := Phases.Step(t6, es[6]);
    Phases.StepReaches(t6, es[6]);
  }
}
