/** The incremental parser of server_base/request_parser: a coroutine that is resumed with every
    chunk that the network delivers. */
module RequestParser {
  import opened Options
  import opened CText
  import opened HttpRequest

  /** Where the coroutine resumes. */
  datatype Stage =
    | Fresh                      // not entered yet
    | InHeader(received: string) // waiting for the end of the header
    | InBody                     // waiting for the rest of the body
    | Done                       // left by return or exception

  /** Throws: std::string::append was asked for more than a string can hold. */
  datatype Verdict = Accept | Reject | NeedMore | Throws

  datatype StepResult = StepResult(stage: Stage, fields: Fields, verdict: Verdict)

  // ---- one resumption, on values

  /** A stage in which the coroutine can be left; in the body something is still missing. */
  predicate Suspended(r: StepResult) {
    !r.stage.Fresh? && (r.stage.InBody? ==> |r.fields.content| < r.fields.contentLength)
  }

  /** prase_http resumed with the `len` bytes at `visible`; strstr also sees the bytes behind them. */
  function Step(s: Stage, f: Fields, visible: string, len: nat): (result: StepResult)
    requires len <= |visible|
    requires s.InBody? ==> |f.content| < f.contentLength
    ensures Suspended(result)
  {
    match s
    case Fresh =>
      var r := StrStr(visible, HTTP_END, 0);
      if r.Some? && r.value < len then HeaderStep(f, visible, r.value + 4, len)
      else CollectStep(f, visible[..len])
    case InHeader(received) => CollectStep(f, received + visible[..len])
    case InBody => BodyStep(f, visible[..len])
    case Done => StepResult(Done, f, Accept)
  }

  function CollectStep(f: Fields, received: string): (result: StepResult)
    ensures Suspended(result)
  {
    match StrStr(received, HTTP_END, 0)
    case None => StepResult(InHeader(received), f, NeedMore)
    case Some(i) => HeaderStep(f, received, i + 4, |received|)
  }

  /** The header block ends at `pend`; what follows it, up to `len`, is content. */
  function HeaderStep(f: Fields, text: string, pend: nat, len: nat): (result: StepResult)
    requires pend <= |text| && len <= |text|
    ensures Suspended(result)
  {
    var r := ReadHeader(f, text, len);
    if !r.ok then StepResult(Done, r.fields, Reject)
    else if pend > len then StepResult(Done, r.fields, Throws)
    else
      var g := r.fields.(content := r.fields.content + text[pend..len]);
      if |g.content| >= g.contentLength then StepResult(Done, g, Accept) else StepResult(InBody, g, NeedMore)
  }

  function BodyStep(f: Fields, chunk: string): (result: StepResult)
    requires |f.content| < f.contentLength
    ensures Suspended(result)
  {
    var need := f.contentLength - |f.content|;
    var g := f.(content := f.content + (if |chunk| < need then chunk else chunk[..need]));
    if |g.content| >= g.contentLength then StepResult(Done, g, Accept) else StepResult(InBody, g, NeedMore)
  }

  /** `parse`: keeps the raw bytes and turns an exception into a failed parse. */
  function ParseStep(s: Stage, f: Fields, visible: string, len: nat): (r: StepResult)
    requires len <= |visible|
    requires s.InBody? ==> |f.content| < f.contentLength
    ensures r.verdict != Throws && Suspended(r)
  {
    var r := Step(s, f.(data := f.data + visible[..len]), visible, len);
    if r.verdict == Throws then r.(verdict := Reject) else r
  }

  // ---- the character loops

  /** `while (it < len && line[it] != c) it++`. */
  method ScanTo(line: string, c: char, from: nat) returns (it: nat)
    requires from <= |line|
    ensures it == IndexOf(line, c, from)
  {
    it := from;
    while it < |line| && line[it] != c
      invariant from <= it <= |line| && IndexOf(line, c, it) == IndexOf(line, c, from)
    {
      it := it + 1;
    }
  }

  /** `while (it < len && line[it] == c) it++`. */
  method ScanOver(line: string, c: char, from: nat) returns (it: nat)
    requires from <= |line|
    ensures it == SkipAll(line, c, from)
  {
    it := from;
    while it < |line| && line[it] == c
      invariant from <= it <= |line| && SkipAll(line, c, it) == SkipAll(line, c, from)
    {
      it := it + 1;
    }
  }

  /** `while (it < len && line[it] && line[it] != c) it++`. */
  method ScanStop(line: string, c: char, from: nat) returns (it: nat)
    requires from <= |line|
    ensures it == StopAt(line, c, from)
  {
    it := from;
    while it < |line| && line[it] != NUL && line[it] != c
      invariant from <= it <= |line| && StopAt(line, c, it) == StopAt(line, c, from)
    {
      it := it + 1;
    }
  }

  /** ncmp(s, p, |p|): a NUL ends the comparison like the end of the text does. */
  method Ncmp(s: string, p: string) returns (equal: bool)
    requires p != "" && NUL !in p
    ensures equal <==> p <= s
  {
    var i := 0;
    while i < |s| && s[i] != NUL && i < |p|
      invariant i <= |s| && i <= |p| && s[..i] == p[..i]
    {
      if s[i] != p[i] {
        return false;
      }
      i := i + 1;
    }
    return i == |p|;
  }

  // ---- the class

  class Parser {
    var stage: Stage
    var httpHeader: string
    var linebuf: string
    var ret: int
    var offset: nat

    ghost predicate Valid()
      reads this
    {
      (stage.Fresh? ==> httpHeader == "") && (stage.InHeader? ==> httpHeader == stage.received)
    }

    constructor ()
      ensures Valid() && stage == Fresh
    {
      stage, httpHeader, linebuf, ret, offset := Fresh, "", "", 0, 0;
    }

    /** The fields show the line of src that starts at `at`. */
    ghost predicate LineRead(src: string, at: nat)
      reads this
    {
      at <= offset <= |src| &&
      match StrStr(src, CRLF, at)
      case None => ret == -1 && offset == at
      case Some(e) => ret == e + 2 - at && offset == e + 2 && linebuf == src[at..e + 2] && IsLine(linebuf)
    }

    /** getline_from_buf2: the next line with its CRLF, or -1. */
    method GetLine(src: string)
      requires offset <= |src|
      modifies `linebuf, `offset, `ret
      ensures LineRead(src, old(offset)) && (ret < 0 ==> linebuf == old(linebuf))
    {
      var pend := StrStr(src, CRLF, offset);
      if pend.None? {
        ret := -1;
        return;
      }
      var n := pend.value + 2 - offset;
      linebuf := src[offset..offset + n];
      offset := offset + n;
      ret := n;
    }

    /** get_http_uri. */
    method GetHttpUri(req: Request, line: string) returns (ok: bool)
      requires IsLine(line) && POST <= line
      modifies req
      ensures LineResult(req.Value(), ok) == UriLine(old(req.Value()), line)
    {
      assert line[4] == ' ' && line[|line| - 2] == '\r';
      hide IndexOf, SkipAll, TrimUri;
      var it := ScanTo(line, ' ', 0);
      req.verb := req.verb + line[..it];
      it := ScanOver(line, ' ', it);
      if line[it] == '/' {
        it := it + 1;
      }
      var it2 := ScanTo(line, ' ', it + 1);
      if it2 == |line| {
        return false;
      }
      req.uri := TrimUri(line[it..it2]);
      return true;
    }

    /** get_mime_header. */
    method GetMimeHeader(req: Request, line: string) returns (ok: bool)
      modifies req
      ensures LineResult(req.Value(), ok) == MimeLine(old(req.Value()), line)
    {
      hide StopAt, Trim;
      var it := ScanStop(line, ':', 0);
      if it == |line| || line[it] != ':' {
        return false;
      }
      var name := Trim(line[..it]);
      var it2 := ScanStop(line, '\n', it + 1);
      if it2 == |line| || line[it2] != '\n' {
        return false;
      }
      var value := Trim(line[it + 1..it2 + 1]);
      req.headers := req.headers + [Header(name, value)];
      if name == "User-cmd" {
        req.reqCmd := value;
      }
      return true;
    }

    /** The body of the line loop, for a line that is not blank. */
    method ReadHeaderLine(req: Request) returns (ok: bool)
      requires IsLine(linebuf)
      modifies req
      ensures LineResult(req.Value(), ok) == ReadLine(old(req.Value()), linebuf)
    {
      hide UriLine, MimeLine;
      var post := Ncmp(linebuf, POST);
      if post {
        ok := GetHttpUri(req, linebuf);
        return;
      }
      if req.uri == "" {
        return false;
      }
      ok := GetMimeHeader(req, linebuf);
    }

    /** The line loop of prase_http. */
    method ReadHeaderLines(req: Request, text: string, len: nat) returns (done: bool)
      modifies this, req
      ensures BlockResult(req.Value(), done, offset) == ReadLines(old(req.Value()), text, 0, len)
      ensures stage == old(stage) && httpHeader == old(httpHeader)
    {
      hide ReadLine, StrStr, IsLine;
      offset := 0;
      GetLine(text);
      ghost var at: nat := 0;
      while ret > 0 && offset < len
        invariant LineRead(text, at) && stage == old(stage) && httpHeader == old(httpHeader)
        invariant ReadLines(old(req.Value()), text, 0, len) == ReadLines(req.Value(), text, at, len)
        decreases |text| - at
      {
        var blank := Ncmp(linebuf, CRLF);
        if ret == 2 && blank {
          break;
        }
        var ok := ReadHeaderLine(req);
        if !ok {
          return false;
        }
        at := offset;
        GetLine(text);
      }
      return true;
    }

    /** The search for Content-Length headers: each must cast, and the last one counts. */
    method FindContentLength(req: Request) returns (ok: bool)
      modifies req
      ensures LineResult(req.Value(), ok) == ScanLength(old(req.Value()), 0)
      ensures ok <==> forall k :: 0 <= k < |old(req.headers)| && IsLength(old(req.headers)[k])
                              ==> LexicalCastSize(old(req.headers)[k].value).Some?
      ensures ok ==> forall k: nat :: LastLength(old(req.headers), k)
                              ==> req.contentLength == LexicalCastSize(old(req.headers)[k].value).value
    {
      hide LexicalCastSize, HeadersEqual;
      LastLengthWins(req.Value(), 0);
      var i := 0;
      while i < |req.headers|
        invariant i <= |req.headers|
        invariant ScanLength(req.Value(), i) == ScanLength(old(req.Value()), 0)
      {
        if HeadersEqual(req.headers[i].name, CONTENT_LENGTH) {
          var cast := LexicalCastSize(req.headers[i].value);
          if cast.None? {
            return false;
          }
          req.contentLength := cast.value;
          req.bheader := true;
        }
        i := i + 1;
      }
      return true;
    }

    /** prase_http from the complete header block on. */
    method HeaderComplete(req: Request, text: string, pend: nat, len: nat) returns (v: Verdict)
      requires pend <= |text| && len <= |text|
      modifies this, req
      ensures Valid() && StepResult(stage, req.Value(), v) == HeaderStep(old(req.Value()), text, pend, len)
    {
      hide ReadLines, ScanLength;
      stage := Done;
      var ok := ReadHeaderLines(req, text, len);
      if !ok {
        return Reject;
      }
      ok := FindContentLength(req);
      if !ok || !req.bheader {
        return Reject;
      }
      if len < pend {
        return Throws;
      }
      req.content := req.content + text[pend..len];
      if |req.content| >= req.contentLength {
        return Accept;
      }
      stage := InBody;
      return NeedMore;
    }

    /** prase_http: one resumption of the coroutine. */
    method ParseHttp(req: Request, visible: string, len: nat) returns (v: Verdict)
      requires Valid() && len <= |visible|
      requires stage.InBody? ==> |req.content| < req.contentLength
      modifies this, req
      ensures Valid()
      ensures StepResult(stage, req.Value(), v) == Step(old(stage), old(req.Value()), visible, len)
      ensures old(stage).Done? ==> v == Accept && stage.Done? && req.Value() == old(req.Value())
    {
      hide HeaderStep, StrStr;
      if stage.Done? {
        return Accept;
      }
      if stage.InBody? {
        var need := req.contentLength - |req.content|;
        if len < need {
          req.content := req.content + visible[..len];
        } else {
          req.content := req.content + visible[..need];
        }
        if |req.content| >= req.contentLength {
          stage := Done;
          return Accept;
        }
        return NeedMore;
      }
      if stage.Fresh? {
        linebuf, ret, offset := "", 0, 0;
        var pend := StrStr(visible, HTTP_END, 0);
        if pend.Some? && pend.value < len {
          v := HeaderComplete(req, visible, pend.value + 4, len);
          return;
        }
      }
      httpHeader := httpHeader + visible[..len];
      assert visible[..len] == "" + visible[..len];
      var pend := StrStr(httpHeader, HTTP_END, 0);
      if pend.Some? {
        v := HeaderComplete(req, httpHeader, pend.value + 4, |httpHeader|);
        return;
      }
      stage := InHeader(httpHeader);
      return NeedMore;
    }

    /** parse(req, begin, begin + len). */
    method Parse(req: Request, visible: string, len: nat) returns (v: Verdict)
      requires Valid() && len <= |visible|
      requires stage.InBody? ==> |req.content| < req.contentLength
      modifies this, req
      ensures Valid()
      ensures StepResult(stage, req.Value(), v) == ParseStep(old(stage), old(req.Value()), visible, len)
    {
      hide Step;
      req.httpReqData := req.httpReqData + visible[..len];
      v := ParseHttp(req, visible, len);
      if v == Throws {
        v := Reject;
      }
    }
  }
}
