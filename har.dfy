/** The HTTP Archive (HAR 1.2) records the trace engine fills in, and the
    two constructors of src/har.ts that build an empty archive and a fresh
    entry. Timings are kept in integer nanoseconds (the values the engine
    divides by 1 000 000 to get the format's milliseconds); -1 is the
    format's "not measured" sentinel. */
module Har {
  import opened Text

  newtype byte = x: int | 0 <= x < 256

  /** The text stored for a body: `buf.toString("utf8")` or
      `buf.toString("base64")` of the given bytes. */
  datatype BodyText = Utf8(bytes: seq<byte>) | Base64(bytes: seq<byte>)

  datatype NameValue = NameValue(name: string, value: string)

  /** A cookie record. `value` is None when the cookie text has no `=`;
      the optional attributes are None when not given, and the two flags
      are false when the record leaves them undefined. */
  datatype Cookie = Cookie(
    name: string,
    value: Option<string>,
    path: Option<string>,
    domain: Option<string>,
    expires: Option<string>,
    httpOnly: bool,
    secure: bool)

  datatype PostData = PostData(
    mimeType: string,
    params: Option<seq<NameValue>>,
    text: Option<BodyText>)

  datatype Content = Content(
    size: int,
    compression: Option<int>,
    mimeType: Option<string>,
    text: Option<BodyText>,
    encoding: Option<string>)

  datatype Request = Request(
    httpMethod: string,
    url: string,
    httpVersion: string,
    cookies: seq<Cookie>,
    headers: seq<NameValue>,
    queryString: seq<NameValue>,
    postData: Option<PostData>,
    headersSize: int,
    bodySize: int)

  datatype Response = Response(
    status: int,
    statusText: string,
    httpVersion: string,
    cookies: seq<Cookie>,
    headers: seq<NameValue>,
    content: Content,
    redirectURL: string,
    headersSize: int,
    bodySize: int)

  /** The cache record is always the empty placeholder. */
  datatype Cache = Cache

  datatype Timings = Timings(
    blocked: int, dns: int, connect: int,
    send: int, wait: int, receive: int,
    ssl: int)

  datatype Entry = Entry(
    startedDateTime: string,
    time: int,
    serverIPAddress: string,
    connection: string,
    request: Request,
    response: Response,
    cache: Cache,
    timings: Timings)

  datatype Creator = Creator(name: string, version: string)

  datatype Page = Page(id: string, title: string, startedDateTime: string)

  datatype Log = Log(version: string, creator: Creator, pages: seq<Page>, entries: seq<Entry>)

  datatype Archive = Archive(log: Log)

  /** How a timing counts toward the total: the -1 sentinel (and any other
      negative value) counts as 0. */
  function Counted(x: int): (r: nat)
    ensures x >= 0 ==> r == x
    ensures x < 0 ==> r == 0
  {
    if x < 0 then 0 else x
  }

  /** The format's invariant: `time` is the sum of the seven phases, with
      unmeasured ones counted as 0. */
  ghost predicate TimeIsPhaseSum(e: Entry)
  {
    var t := e.timings;
    e.time == Counted(t.blocked) + Counted(t.dns) + Counted(t.connect) + Counted(t.ssl)
              + t.send + t.wait + t.receive
  }

  /** No phase has been measured: the four optional phases hold the
      sentinel and the three mandatory ones are zero. */
  ghost predicate NothingMeasured(t: Timings)
  {
    t.blocked == -1 && t.dns == -1 && t.connect == -1 && t.ssl == -1 &&
    t.send == 0 && t.wait == 0 && t.receive == 0
  }

  /** `createArchive(name, version)`: an archive of format version 1.2,
      with the given creator and no pages or entries. */
  function CreateArchive(name: string, version: string): (a: Archive)
    ensures a.log.version == "1.2"
    ensures a.log.creator.name == name && a.log.creator.version == version
    ensures a.log.pages == [] && a.log.entries == []
  {
    Archive(Log("1.2", Creator(name, version), [], []))
  }

  /** `createEntry(method, url, start)` (`httpMethod` is the `method` field); `started` is the ISO-8601 text of
      the start date and `url` the text of the URL. */
  function CreateEntry(httpMethod: string, url: string, started: string): (e: Entry)
    ensures e.startedDateTime == started
    ensures e.request.httpMethod == httpMethod && e.request.url == url
    ensures e.time == 0 && e.serverIPAddress == "" && e.connection == ""
    ensures e.response.status == 0 && e.response.statusText == "" && e.response.redirectURL == ""
    ensures e.request.httpVersion == "HTTP/1.1" && e.response.httpVersion == "HTTP/1.1"
    ensures e.request.cookies == [] && e.request.headers == [] && e.request.queryString == []
    ensures e.response.cookies == [] && e.response.headers == []
    ensures e.request.postData == None
    ensures e.request.headersSize == -1 && e.request.bodySize == -1
    ensures e.response.headersSize == -1 && e.response.bodySize == -1
    ensures e.response.content == Content(0, None, Some(""), None, None)
    ensures NothingMeasured(e.timings)
    ensures TimeIsPhaseSum(e)
  {
    Entry(
      started, 0, "", "",
      Request(httpMethod, url, "HTTP/1.1", [], [], [], None, -1, -1),
      Response(0, "", "HTTP/1.1", [], [], Content(0, None, Some(""), None, None), "", -1, -1),
      Cache,
      Timings(-1, -1, -1, 0, 0, 0, -1))
  }
}
