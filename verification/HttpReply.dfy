/** Replies: their construction, their text and how a client can split that text again. */
module HttpReply {
  import opened Options
  import opened CText
  import opened HttpRequest
  import opened RequestText
  import opened ParserStream

  /** reply::status_type; Other is any value that is not an enumerator. */
  datatype Status =
    | Ok
    | Created
    | Accepted
    | NoContent
    | MultipleChoices
    | MovedPermanently
    | MovedTemporarily
    | NotModified
    | BadRequest
    | Unauthorized
    | Forbidden
    | NotFound
    | InternalServerError
    | NotImplemented
    | BadGateway
    | ServiceUnavailable
    | Other(code: int)

  /** status_strings::to_buffer, without the version and the line end that all entries share. */
  function CodeAndReason(s: Status): (t: string) {
    match s
    case Ok => "200 OK"
    case Created => "201 Created"
    case Accepted => "202 Accepted"
    case NoContent => "204 No Content"
    case MultipleChoices => "300 Multiple Choices"
    case MovedPermanently => "301 Moved Permanently"
    case MovedTemporarily => "302 Moved Temporarily"
    case NotModified => "304 Not Modified"
    case BadRequest => "400 Bad Request"
    case Unauthorized => "401 Unauthorized"
    case Forbidden => "403 Forbidden"
    case NotFound => "404 Not Found"
    case InternalServerError => "500 Internal Server Error"
    case NotImplemented => "501 Not Implemented"
    case BadGateway => "502 Bad Gateway"
    case ServiceUnavailable => "503 Service Unavailable"
    case Other(_) => "500 Internal Server Error"
  }

  function StatusLine(s: Status): (t: string) {
    "HTTP/1.0 " + CodeAndReason(s) + CRLF
  }

  function Page(title: string, heading: string): (t: string) {
    "<html><head><title>" + title + "</title></head><body><h1>" + heading + "</h1></body></html>"
  }

  /** stock_replies::to_string. */
  function StockContent(s: Status): (t: string) {
    match s
    case Ok => ""
    case Created => Page("Created", "201 Created")
    case Accepted => Page("Accepted", "202 Accepted")
    case NoContent => Page("No Content", "204 Content")
    case MultipleChoices => Page("Multiple Choices", "300 Multiple Choices")
    case MovedPermanently => Page("Moved Permanently", "301 Moved Permanently")
    case MovedTemporarily => Page("Moved Temporarily", "302 Moved Temporarily")
    case NotModified => Page("Not Modified", "304 Not Modified")
    case BadRequest => Page("Bad Request", "400 Bad Request")
    case Unauthorized => Page("Unauthorized", "401 Unauthorized")
    case Forbidden => Page("Forbidden", "403 Forbidden")
    case NotFound => Page("Not Found", "404 Not Found")
    case InternalServerError => Page("Internal Server Error", "500 Internal Server Error")
    case NotImplemented => Page("Not Implemented", "501 Not Implemented")
    case BadGateway => Page("Bad Gateway", "502 Bad Gateway")
    case ServiceUnavailable => Page("Service Unavailable", "503 Service Unavailable")
    case Other(_) => Page("Internal Server Error", "500 Internal Server Error")
  }

  /** The page of an enumerator shows what its status line shows, but for 200, which has no page, and 204,
      whose heading lacks a word. */
  lemma {:induction false} PageShowsStatus(s: Status)
    requires !s.Other?
    ensures |CodeAndReason(s)| > 4
    ensures StockContent(s) == Page(CodeAndReason(s)[4..], CodeAndReason(s)) <==> !s.Ok? && !s.NoContent?
    ensures s.Ok? ==> StockContent(s) == ""
    ensures s.NoContent? ==> StockContent(s) == Page(CodeAndReason(s)[4..], "204 Content")
  {
    if s.Ok? || s.Created? || s.Accepted? || s.NoContent? {
      SuccessPages(s);
    } else if s.MultipleChoices? || s.MovedPermanently? || s.MovedTemporarily? || s.NotModified? {
      RedirectionPages(s);
    } else if s.BadRequest? || s.Unauthorized? || s.Forbidden? || s.NotFound? {
      ClientErrorPages(s);
    } else {
      ServerErrorPages(s);
    }
  }

  lemma {:induction false} SuccessPages(s: Status)
    requires s.Ok? || s.Created? || s.Accepted? || s.NoContent?
    ensures |CodeAndReason(s)| > 4
    ensures StockContent(s) == Page(CodeAndReason(s)[4..], CodeAndReason(s)) <==> !s.Ok? && !s.NoContent?
    ensures s.NoContent? ==> StockContent(s) == Page(CodeAndReason(s)[4..], "204 Content")
  {
    match s
    case Created => assert "201 Created"[4..] == "Created";
    case Accepted => assert "202 Accepted"[4..] == "Accepted";
    case NoContent =>
      assert "204 No Content"[4..] == "No Content";
      assert |Page("No Content", "204 No Content")| != |Page("No Content", "204 Content")|;
    case _ =>
  }

  lemma {:induction false} RedirectionPages(s: Status)
    requires s.MultipleChoices? || s.MovedPermanently? || s.MovedTemporarily? || s.NotModified?
    ensures |CodeAndReason(s)| > 4 && StockContent(s) == Page(CodeAndReason(s)[4..], CodeAndReason(s))
  {
    hide Page;
    match s
    case MultipleChoices => assert "300 Multiple Choices"[4..] == "Multiple Choices";
    case MovedPermanently => MovedPages();
    case MovedTemporarily => MovedPages();
    case NotModified => assert "304 Not Modified"[4..] == "Not Modified";
  }

  lemma {:induction false} MovedPages()
    ensures "301 Moved Permanently"[4..] == "Moved Permanently" && "302 Moved Temporarily"[4..] == "Moved Temporarily"
  {
  }

  lemma {:induction false} ClientErrorPages(s: Status)
    requires s.BadRequest? || s.Unauthorized? || s.Forbidden? || s.NotFound?
    ensures |CodeAndReason(s)| > 4 && StockContent(s) == Page(CodeAndReason(s)[4..], CodeAndReason(s))
  {
    hide Page;
    match s
    case BadRequest => assert "400 Bad Request"[4..] == "Bad Request";
    case Unauthorized => assert "401 Unauthorized"[4..] == "Unauthorized";
    case Forbidden => assert "403 Forbidden"[4..] == "Forbidden";
    case NotFound => assert "404 Not Found"[4..] == "Not Found";
  }

  lemma {:induction false} ServerErrorPages(s: Status)
    requires s.InternalServerError? || s.NotImplemented? || s.BadGateway? || s.ServiceUnavailable?
    ensures |CodeAndReason(s)| > 4 && StockContent(s) == Page(CodeAndReason(s)[4..], CodeAndReason(s))
  {
    hide Page;
    match s
    case InternalServerError => InternalPages();
    case NotImplemented => assert "501 Not Implemented"[4..] == "Not Implemented";
    case BadGateway => assert "502 Bad Gateway"[4..] == "Bad Gateway";
    case ServiceUnavailable => UnavailablePages();
  }

  lemma {:induction false} InternalPages()
    ensures "500 Internal Server Error"[4..] == "Internal Server Error"
  {
  }

  lemma {:induction false} UnavailablePages()
    ensures "503 Service Unavailable"[4..] == "Service Unavailable"
  {
  }

  /** The values of the fields of a reply. */
  datatype ReplyValue = ReplyValue(status: Status, headers: seq<Header>, content: string)

  function WithContent(status: Status, content: string, contentType: string): (answer: ReplyValue) {
    ReplyValue(status, [Header("Content-Length", Decimal(|content|)), Header("Content-Type", contentType)], content)
  }

  function OkReply(message: string): (answer: ReplyValue) {
    WithContent(Ok, message, "text/plain")
  }

  function StockReplyValue(status: Status): (answer: ReplyValue) {
    WithContent(status, StockContent(status), "text/html")
  }

  class Reply {
    var status: Status
    var headers: seq<Header>
    var content: string

    function Value(): (answer: ReplyValue)
      reads this
    {
      ReplyValue(status, headers, content)
    }

    /** The status of a new reply is not initialised: it can be anything. */
    constructor (anyStatus: Status)
      ensures Value() == ReplyValue(anyStatus, [], "")
    {
      status, headers, content := anyStatus, [], "";
    }

    /** stock_reply. */
    constructor Stock(s: Status)
      ensures Value() == StockReplyValue(s)
    {
      status := s;
      content := StockContent(s);
      headers := [Header("Content-Length", Decimal(|StockContent(s)|)), Header("Content-Type", "text/html")];
    }

    /** Copy assignment. */
    method Assign(other: Reply)
      modifies this
      ensures Value() == old(other.Value())
    {
      status, headers, content := other.status, other.headers, other.content;
    }

    /** Handler::BuidlReply. */
    method BuildReply(message: string)
      modifies this
      ensures Value() == OkReply(message)
    {
      status := Ok;
      content := message;
      headers := [Header("Content-Length", Decimal(|content|)), Header("Content-Type", "text/plain")];
    }

    /** to_buffers: the buffers that are written one after the other. */
    method ToBuffers() returns (buffers: seq<string>)
      ensures Joined(buffers) == Serialize(Value())
    {
      hide StatusLine, HeaderLine;
      buffers := [StatusLine(status)];
      JoinedOne(StatusLine(status));
      assert headers[0..] == headers;
      var i := 0;
      while i < |headers|
        invariant i <= |headers|
        invariant Joined(buffers) + HeaderText(headers[i..]) == StatusLine(status) + HeaderText(headers)
      {
        var h := headers[i];
        ghost var was := buffers;
        buffers := buffers + [h.name, ": ", h.value, CRLF];
        JoinedAppend(was, [h.name, ": ", h.value, CRLF]);
        JoinedHeader(h);
        assert headers[i..][1..] == headers[i + 1..];
        i := i + 1;
      }
      JoinedAppend(buffers, [CRLF, content]);
      JoinedPair(CRLF, content);
      assert headers[i..] == [];
      buffers := buffers + [CRLF, content];
    }
  }

  // ---- the text of a reply

  function Joined(buffers: seq<string>): (t: string) {
    if buffers == [] then "" else buffers[0] + Joined(buffers[1..])
  }

  lemma {:induction false} JoinedAppend(a: seq<string>, b: seq<string>)
    ensures Joined(a + b) == Joined(a) + Joined(b)
  {
    if a == [] {
      assert a + b == b;
    } else {
      assert (a + b)[1..] == a[1..] + b;
      JoinedAppend(a[1..], b);
    }
  }

  lemma {:induction false} JoinedOne(b: string)
    ensures Joined([b]) == b
  {
    assert [b][1..] == [];
  }

  lemma {:induction false} JoinedHeader(h: Header)
    ensures Joined([h.name, ": ", h.value, CRLF]) == HeaderLine(h)
  {
    JoinedPair(h.name, ": ");
    JoinedPair(h.value, CRLF);
    JoinedAppend([h.name, ": "], [h.value, CRLF]);
    assert [h.name, ": ", h.value, CRLF] == [h.name, ": "] + [h.value, CRLF];
  }

  lemma {:induction false} JoinedPair(a: string, b: string)
    ensures Joined([a, b]) == a + b
  {
    JoinedOne(a);
    JoinedOne(b);
    JoinedAppend([a], [b]);
    assert [a, b] == [a] + [b];
  }

  /** What arrives at the client. */
  function Serialize(r: ReplyValue): (t: string) {
    StatusLine(r.status) + HeaderText(r.headers) + CRLF + r.content
  }

  /** The whole text of a success. */
  lemma {:induction false} OkReplyText(message: string)
    ensures Serialize(OkReply(message))
         == "HTTP/1.0 200 OK\r\n"
            + (("Content-Length: " + Decimal(|message|) + "\r\n") + "Content-Type: text/plain\r\n")
            + "\r\n" + message
  {
    hide Decimal, StatusLine, HeaderLine, HeaderText;
    var length, kind := Header("Content-Length", Decimal(|message|)), Header("Content-Type", "text/plain");
    TwoHeaderText(length, kind);
    OkLine();
    LengthLine(length);
  }

  /** The whole text of a stock reply. */
  lemma {:induction false} StockReplyText(s: Status)
    ensures Serialize(StockReplyValue(s))
         == StatusLine(s)
            + (("Content-Length: " + Decimal(|StockContent(s)|) + "\r\n") + "Content-Type: text/html\r\n")
            + "\r\n" + StockContent(s)
  {
    hide Decimal, StatusLine, HeaderLine, HeaderText, StockContent;
    var length, kind := Header("Content-Length", Decimal(|StockContent(s)|)), Header("Content-Type", "text/html");
    TwoHeaderText(length, kind);
    OkLine();
    LengthLine(length);
  }

  lemma {:induction false} OkLine()
    ensures StatusLine(Ok) == "HTTP/1.0 200 OK\r\n"
    ensures HeaderLine(Header("Content-Type", "text/plain")) == "Content-Type: text/plain\r\n"
    ensures HeaderLine(Header("Content-Type", "text/html")) == "Content-Type: text/html\r\n"
  {
  }

  lemma {:induction false} LengthLine(h: Header)
    requires h.name == "Content-Length"
    ensures HeaderLine(h) == "Content-Length: " + h.value + "\r\n"
  {
    assert h.name + ": " == "Content-Length: ";
  }

  lemma {:induction false} TwoHeaderText(h: Header, k: Header)
    ensures HeaderText([h, k]) == HeaderLine(h) + HeaderLine(k)
  {
    hide HeaderLine;
    assert [h, k][1..] == [k] && [k][1..] == [];
    assert HeaderText([k]) == HeaderLine(k) + "" == HeaderLine(k);
  }

  // ---- framing

  /** The reply carries the length of its content. */
  predicate Framed(r: ReplyValue) {
    AllCanonical(r.headers) && Declares(r.headers, |r.content|)
  }

  lemma {:induction false} WithContentFramed(status: Status, content: string, contentType: string)
    requires |content| < SIZE_MODULUS && (contentType == "text/plain" || contentType == "text/html")
    ensures Framed(WithContent(status, content, contentType))
  {
    hide Decimal, LexicalCastSize, Declares, HeadersEqual, IsPlain;
    var h := Header("Content-Type", contentType);
    var length := Header("Content-Length", Decimal(|content|));
    DecimalReadsBack(|content|);
    ContentTypeHeader(contentType);
    LengthHeader(Decimal(|content|));
    DecimalDeclares([], |content|, [h]);
    assert [] + [length] + [h] == [length, h];
  }

  lemma {:induction false} ContentTypeHeader(contentType: string)
    requires contentType == "text/plain" || contentType == "text/html"
    ensures IsCanonical(Header("Content-Type", contentType)) && !HeadersEqual("Content-Type", CONTENT_LENGTH)
  {
    assert IsToken("Content-Type");
    assert IsPlain("text/plain") && IsPlain("text/html");
  }

  lemma {:induction false} LengthHeader(value: string)
    requires Trimmed(value) && '\n' !in value && '\r' !in value && NUL !in value
    ensures IsCanonical(Header("Content-Length", value))
  {
  }

  /** A client's view of one reply, and the bytes behind it. */
  datatype Arrived = Arrived(statusLine: string, headers: seq<Header>, content: string, rest: string)

  /** Name and value around the first colon. */
  function HeaderOf(line: string): (h: Option<Header>) {
    var colon := IndexOf(line, ':', 0);
    if colon == |line| then None else Some(Header(Trim(line[..colon]), Trim(line[colon + 1..])))
  }

  /** The client's header loop: a header on each line, up to the blank line. */
  function ReadHeaders(text: string, at: nat): (hs: Option<seq<Header>>)
    requires at <= |text|
    decreases |text| - at
  {
    match StrStr(text, CRLF, at)
    case None => None
    case Some(e) =>
      if e == at then Some([])
      else
        var h, more := HeaderOf(text[at..e]), ReadHeaders(text, e + 2);
        if h.None? || more.None? then None else Some([h.value] + more.value)
  }

  /** Reading one reply: the block up to the blank line, then as many bytes as it declares. */
  function ReadReply(s: string): (r: Option<Arrived>) {
    match StrStr(s, HTTP_END, 0)
    case None => None
    case Some(i) =>
      var head := s[..i + 4];
      match StrStr(head, CRLF, 0)
      case None => None
      case Some(e) =>
        match ReadHeaders(head, e + 2)
        case None => None
        case Some(hs) =>
          var length := ScanLength(RESET.(headers := hs), 0);
          var n := length.fields.contentLength;
          if length.ok && length.fields.bheader && i + 4 + n <= |s| then
            Some(Arrived(head[..e + 2], hs, s[i + 4..i + 4 + n], s[i + 4 + n..]))
          else None
  }

  /** The client reads back the headers that were written. */
  lemma {:induction false} ReadHeadersBack(text: string, at: nat, hs: seq<Header>)
    requires at <= |text| && text[at..] == HeaderText(hs) + CRLF && AllCanonical(hs)
    ensures ReadHeaders(text, at) == Some(hs)
    decreases |hs|
  {
    hide StrStr, HeaderOf, HeaderLine, IsCanonical;
    if hs == [] {
      BlankLineFound(text, at);
    } else {
      var line, tail := HeaderLine(hs[0]), HeaderText(hs[1..]) + CRLF;
      assert text[at..] == line + tail;
      SplitLine(text, at, line, tail);
      HeaderLineIsHeader(hs[0]);
      FirstLine(text, at, line[..|line| - 2]);
      NameAndValue(hs[0]);
      ReadHeadersBack(text, at + |line|, hs[1..]);
      assert hs == [hs[0]] + hs[1..];
    }
  }

  lemma {:induction false} FirstLine(text: string, at: nat, line: string)
    requires IsPlain(line) && at + |line| + 2 <= |text| && text[at..at + |line| + 2] == line + CRLF
    ensures StrStr(text, CRLF, at) == Some(at + |line|) && text[at..at + |line|] == line
  {
    hide StrStr, IsPlain;
    LineFound(text, at, line);
    assert text[at..at + |line|] == text[at..at + |line| + 2][..|line|];
  }

  lemma {:induction false} NameAndValue(h: Header)
    requires IsCanonical(h)
    ensures |HeaderLine(h)| >= 2 && HeaderOf(HeaderLine(h)[..|HeaderLine(h)| - 2]) == Some(h)
  {
    hide Trim, IndexOf;
    HeaderLineParts(h);
    var line := HeaderLine(h)[..|HeaderLine(h)| - 2];
    IndexOfIs(line, ':', 0, |h.name|);
    TrimSurrounded("", h.name, "");
    TrimSurrounded(" ", h.value, "");
    assert line[..|h.name|] == "" + h.name + "" && line[|h.name| + 1..] == " " + h.value + "";
  }

  lemma {:induction false} SuccessIsPlain(s: Status)
    requires s.Ok? || s.Created? || s.Accepted? || s.NoContent?
    ensures IsPlain(CodeAndReason(s))
  {
  }

  lemma {:induction false} RedirectionIsPlain(s: Status)
    requires s.MultipleChoices? || s.MovedPermanently? || s.MovedTemporarily? || s.NotModified?
    ensures IsPlain(CodeAndReason(s))
  {
  }

  lemma {:induction false} ClientErrorIsPlain(s: Status)
    requires s.BadRequest? || s.Unauthorized? || s.Forbidden? || s.NotFound?
    ensures IsPlain(CodeAndReason(s))
  {
  }

  lemma {:induction false} ServerErrorIsPlain(s: Status)
    requires s.NotImplemented? || s.BadGateway? || s.ServiceUnavailable?
    ensures IsPlain(CodeAndReason(s))
  {
  }

  lemma {:induction false} StatusLineIsPlain(s: Status)
    ensures IsPlain("HTTP/1.0 " + CodeAndReason(s))
  {
    if s.Ok? || s.Created? || s.Accepted? || s.NoContent? {
      hide CodeAndReason;
      SuccessIsPlain(s);
    } else if s.MultipleChoices? || s.MovedPermanently? || s.MovedTemporarily? || s.NotModified? {
      hide CodeAndReason;
      RedirectionIsPlain(s);
    } else if s.BadRequest? || s.Unauthorized? || s.Forbidden? || s.NotFound? {
      hide CodeAndReason;
      ClientErrorIsPlain(s);
    } else if s.NotImplemented? || s.BadGateway? || s.ServiceUnavailable? {
      hide CodeAndReason;
      ServerErrorIsPlain(s);
    }
  }

  /** A framed reply is read back whole, whatever follows it on the wire. */
  lemma {:induction false} ReplyReadsBack(r: ReplyValue, rest: string)
    requires Framed(r)
    ensures ReadReply(Serialize(r) + rest) == Some(Arrived(StatusLine(r.status), r.headers, r.content, rest))
  {
    hide StrStr, ReadHeaders, ScanLength, IsPlain, AllCanonical, HeaderText, CodeAndReason;
    var status, s := "HTTP/1.0 " + CodeAndReason(r.status), Serialize(r) + rest;
    var head := StatusLine(r.status) + HeaderText(r.headers) + CRLF;
    StatusLineIsPlain(r.status);
    assert s[0..] == s == BlockText(status, r.headers, r.content + rest);
    MarkerFound(s, 0, status, r.headers, r.content + rest);
    assert s == head + (r.content + rest);
    assert s[..|head|] == head;
    assert head[0..] == (status + CRLF) + (HeaderText(r.headers) + CRLF);
    SplitLine(head, 0, status + CRLF, HeaderText(r.headers) + CRLF);
    LineFound(head, 0, status);
    ReadHeadersBack(head, |status| + 2, r.headers);
    SplitLine(s, |head|, r.content, rest);
  }

  function SerializeAll(rs: seq<ReplyValue>): (t: string) {
    if rs == [] then "" else Serialize(rs[0]) + SerializeAll(rs[1..])
  }

  /** The values of the enumerators. */
  function Code(s: Status): (code: int) {
    match s
    case Ok => 200
    case Created => 201
    case Accepted => 202
    case NoContent => 204
    case MultipleChoices => 300
    case MovedPermanently => 301
    case MovedTemporarily => 302
    case NotModified => 304
    case BadRequest => 400
    case Unauthorized => 401
    case Forbidden => 403
    case NotFound => 404
    case InternalServerError => 500
    case NotImplemented => 501
    case BadGateway => 502
    case ServiceUnavailable => 503
    case Other(code) => code
  }

  /** The status line shows the value of the enumerator. */
  lemma {:induction false} CodeInLine(s: Status)
    requires !s.Other?
    ensures var t := StatusLine(s);
            |t| > 12 && Code(s) == 100 * (t[9] as int - 48) + 10 * (t[10] as int - 48) + (t[11] as int - 48)
  {
    CodeDigits(s);
    hide CodeAndReason, Code;
    var c := CodeAndReason(s);
    assert StatusLine(s)[9] == c[0] && StatusLine(s)[10] == c[1] && StatusLine(s)[11] == c[2];
  }

  lemma {:induction false} CodeDigits(s: Status)
    requires !s.Other?
    ensures var c := CodeAndReason(s);
            |c| > 3 && Code(s) == 100 * (c[0] as int - 48) + 10 * (c[1] as int - 48) + (c[2] as int - 48)
  {
  }

  /** The enumerator whose line is shown: values that are not enumerators show the line of 500. */
  function Shown(s: Status): (t: Status)
    ensures !t.Other? && StatusLine(t) == StatusLine(s)
  {
    if s.Other? then InternalServerError else s
  }

  /** No two enumerators share a status line, and all other values share the line of 500. */
  lemma {:induction false} StatusLineInjective(s: Status, t: Status)
    ensures StatusLine(s) == StatusLine(t) <==> Shown(s) == Shown(t)
  {
    hide StatusLine;
    if StatusLine(s) == StatusLine(t) {
      CodeInLine(Shown(s));
      CodeInLine(Shown(t));
    }
  }

  /** Framing: the bytes of a list of framed replies determine the list, up to what the status line
      shows of a status. */
  lemma {:induction false} RepliesSplitBack(rs: seq<ReplyValue>, ts: seq<ReplyValue>)
    requires forall i :: 0 <= i < |rs| ==> Framed(rs[i])
    requires forall i :: 0 <= i < |ts| ==> Framed(ts[i])
    requires SerializeAll(rs) == SerializeAll(ts)
    ensures |rs| == |ts|
    ensures forall i :: 0 <= i < |rs| ==>
              rs[i].(status := Shown(rs[i].status)) == ts[i].(status := Shown(ts[i].status))
  {
    hide Framed, ReadReply, StatusLine, Serialize, Shown;
    if rs != [] { NotEmpty(rs[0]); }
    if ts != [] { NotEmpty(ts[0]); }
    if rs != [] && ts != [] {
      ReplyReadsBack(rs[0], SerializeAll(rs[1..]));
      ReplyReadsBack(ts[0], SerializeAll(ts[1..]));
      StatusLineInjective(rs[0].status, ts[0].status);
      RepliesSplitBack(rs[1..], ts[1..]);
      assert rs == [rs[0]] + rs[1..] && ts == [ts[0]] + ts[1..];
    }
  }

  lemma {:induction false} NotEmpty(r: ReplyValue)
    ensures Serialize(r) != ""
  {
  }
}
