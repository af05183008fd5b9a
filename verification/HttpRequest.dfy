/** The request object and the reading of a header block, as functions on values. */
module HttpRequest {
  import opened Options
  import opened CText

  datatype Header = Header(name: string, value: string)

  /** The values of the fields of a request. */
  datatype Fields = Fields(verb: string, uri: string, major: int, minor: int, headers: seq<Header>,
                           content: string, bheader: bool, contentLength: nat, data: string, cmd: string)

  const RESET := Fields("", "", 0, 0, [], "", false, 0, "", "")

  class Request {
    var verb: string
    var uri: string
    var httpVersionMajor: int
    var httpVersionMinor: int
    var headers: seq<Header>
    var content: string
    var bheader: bool
    var contentLength: nat
    var httpReqData: string
    var reqCmd: string

    function Value(): (g: Fields)
      reads this
    {
      Fields(verb, uri, httpVersionMajor, httpVersionMinor, headers, content, bheader, contentLength,
             httpReqData, reqCmd)
    }

    /** A connection's first request is taken to start out reset; the source leaves `bheader` unset. */
    constructor ()
      ensures Value() == RESET
    {
      new;
      Reset();
    }

    method Reset()
      modifies this
      ensures Value() == RESET
      ensures verb == uri == content == httpReqData == reqCmd == "" && headers == []
      ensures httpVersionMajor == httpVersionMinor == contentLength == 0 && !bheader
    {
      verb := "";
      uri := "";
      httpVersionMajor := 0;
      httpVersionMinor := 0;
      headers := [];
      content := "";
      bheader := false;
      contentLength := 0;
      httpReqData := "";
      reqCmd := "";
    }
  }

  // ---- single lines

  const POST := "POST "
  const HTTP_END := "\r\n\r\n"

  predicate IsLine(line: string) {
    |line| >= 2 && line[|line| - 2..] == CRLF
  }

  /** The uri kept from the text between the spaces of a POST line. */
  function TrimUri(uri: string): (t: string) {
    var u := EraseAll(EraseAll(uri, "http://"), "HTTP://");
    var u := u[..IndexOf(u, '?', 0)];
    var slash := IndexOf(u, '/', 0);
    if 0 < slash < |u| then u[..slash] else u
  }

  datatype LineResult = LineResult(fields: Fields, ok: bool)

  /** get_http_uri: the method is appended even when the line is then rejected. */
  function UriLine(f: Fields, line: string): (result: LineResult)
    requires IsLine(line) && POST <= line
  {
    var m := IndexOf(line, ' ', 0);
    var f := f.(verb := f.verb + line[..m]);
    assert line[4] == ' ' && line[|line| - 2] == '\r';
    var p := SkipAll(line, ' ', m);
    var q := if line[p] == '/' then p + 1 else p;
    var e := IndexOf(line, ' ', q + 1);
    if e == |line| then LineResult(f, false) else LineResult(f.(uri := TrimUri(line[q..e])), true)
  }

  /** The first position from `from` on that holds c or a NUL, or the end. */
  function StopAt(s: string, c: char, from: nat): (i: nat)
    requires from <= |s|
    ensures from <= i <= |s| && (i < |s| ==> s[i] == c || s[i] == NUL)
    ensures forall k :: from <= k < i ==> s[k] != c && s[k] != NUL
    decreases |s| - from
  {
    if from == |s| || s[from] == c || s[from] == NUL then from else StopAt(s, c, from + 1)
  }

  /** get_mime_header. */
  function MimeLine(f: Fields, line: string): (result: LineResult) {
    var c := StopAt(line, ':', 0);
    if c == |line| || line[c] != ':' then LineResult(f, false)
    else
      var e := StopAt(line, '\n', c + 1);
      if e == |line| || line[e] != '\n' then LineResult(f, false)
      else
        var h := Header(Trim(line[..c]), Trim(line[c + 1..e + 1]));
        LineResult(f.(headers := f.headers + [h], cmd := if h.name == "User-cmd" then h.value else f.cmd), true)
  }

  /** A line of the block that is not the blank one; a header needs a uri before it. */
  function ReadLine(f: Fields, line: string): (result: LineResult)
    requires IsLine(line)
  {
    if POST <= line then UriLine(f, line)
    else if f.uri == "" then LineResult(f, false)
    else MimeLine(f, line)
  }

  // ---- the block of lines

  /** Where the line loop stopped, with the fields it had filled in by then. */
  datatype BlockResult = BlockResult(fields: Fields, ok: bool, offset: nat)

  /** The header line loop on `text` from `offset`; `len` is the length the loop test uses. */
  function ReadLines(f: Fields, text: string, offset: nat, len: nat): (r: BlockResult)
    requires offset <= |text|
    ensures offset <= r.offset <= |text|
    decreases |text| - offset
  {
    match StrStr(text, CRLF, offset)
    case None => BlockResult(f, true, offset)
    case Some(e) =>
      var line, next := text[offset..e + 2], e + 2;
      if next >= len || line == CRLF then BlockResult(f, true, next)
      else
        LineAt(text, offset, e);
        var r := ReadLine(f, line);
        if r.ok then ReadLines(r.fields, text, next, len) else BlockResult(r.fields, false, next)
  }

  lemma {:induction false} LineAt(text: string, at: nat, e: nat)
    requires at <= e && MatchesAt(text, CRLF, e)
    ensures IsLine(text[at..e + 2])
  {
    assert text[at..e + 2][|text[at..e + 2]| - 2..] == text[e..e + 2];
  }

  predicate HeadersEqual(a: string, b: string) {
    |a| == |b| && LowerCase(a) == LowerCase(b)
  }

  /** In any case of letters. */
  lemma {:induction false} HeadersEqualExactly(a: string, b: string)
    ensures HeadersEqual(a, b) <==> |a| == |b| && forall i :: 0 <= i < |a| ==> SameLetter(a[i], b[i])
  {
    LowerCaseIgnoresCase(a, b);
  }

  const CONTENT_LENGTH := "Content-Length"

  /** The search for Content-Length headers from position i on: the last one wins, a bad one fails. */
  function ScanLength(f: Fields, i: nat): (result: LineResult)
    requires i <= |f.headers|
    decreases |f.headers| - i
  {
    if i == |f.headers| then LineResult(f, true)
    else if HeadersEqual(f.headers[i].name, CONTENT_LENGTH) then
      match LexicalCastSize(f.headers[i].value)
      case None => LineResult(f, false)
      case Some(n) => ScanLength(f.(contentLength := n, bheader := true), i + 1)
    else ScanLength(f, i + 1)
  }

  predicate IsLength(h: Header) {
    HeadersEqual(h.name, CONTENT_LENGTH)
  }

  /** The last Content-Length header is number k. */
  predicate LastLength(hs: seq<Header>, k: nat) {
    k < |hs| && IsLength(hs[k]) && forall j :: k < j < |hs| ==> !IsLength(hs[j])
  }

  /** The search succeeds exactly when every Content-Length header from i on casts to a size; then the
      last one decides, and without one nothing changes. */
  lemma {:induction false} LastLengthWins(f: Fields, i: nat)
    requires i <= |f.headers|
    ensures ScanLength(f, i).ok <==>
              forall k :: i <= k < |f.headers| && IsLength(f.headers[k]) ==> LexicalCastSize(f.headers[k].value).Some?
    ensures ScanLength(f, i).ok && (forall k :: i <= k < |f.headers| ==> !IsLength(f.headers[k]))
        ==> ScanLength(f, i).fields == f
    ensures forall k :: i <= k && LastLength(f.headers, k) && ScanLength(f, i).ok ==>
              ScanLength(f, i).fields
              == f.(contentLength := LexicalCastSize(f.headers[k].value).value, bheader := true)
    decreases |f.headers| - i
  {
    hide LexicalCastSize, HeadersEqual;
    if i < |f.headers| {
      if IsLength(f.headers[i]) {
        match LexicalCastSize(f.headers[i].value)
        case None =>
        case Some(n) => LastLengthWins(f.(contentLength := n, bheader := true), i + 1);
      } else {
        LastLengthWins(f, i + 1);
      }
    }
  }

  ghost predicate HasLength(hs: seq<Header>) {
    exists k :: 0 <= k < |hs| && IsLength(hs[k])
  }

  ghost predicate LengthsCast(hs: seq<Header>) {
    forall k :: 0 <= k < |hs| && IsLength(hs[k]) ==> LexicalCastSize(hs[k].value).Some?
  }

  /** From a fresh request the search finds a length exactly when there is one and all of them cast. */
  lemma {:induction false} ScanExactly(f: Fields)
    requires !f.bheader
    ensures ScanLength(f, 0).ok && ScanLength(f, 0).fields.bheader <==> HasLength(f.headers) && LengthsCast(f.headers)
  {
    hide ScanLength, LexicalCastSize, HeadersEqual;
    LastLengthWins(f, 0);
    if HasLength(f.headers) {
      var last := LastLengthIn(f.headers);
    }
  }

  lemma {:induction false} LastLengthIn(hs: seq<Header>) returns (last: nat)
    requires HasLength(hs)
    ensures LastLength(hs, last)
  {
    hide HeadersEqual;
    last := |hs| - 1;
    if !IsLength(hs[last]) {
      assert HasLength(hs[..last]) by {
        var k :| 0 <= k < |hs| && IsLength(hs[k]);
        assert hs[..last][k] == hs[k];
      }
      last := LastLengthIn(hs[..last]);
    }
  }

  /** A complete header block: the lines, then the search, which must find a length. */
  function ReadHeader(f: Fields, text: string, len: nat): (result: LineResult) {
    var lines := ReadLines(f, text, 0, len);
    if !lines.ok then LineResult(lines.fields, false)
    else
      var r := ScanLength(lines.fields, 0);
      LineResult(r.fields, r.ok && r.fields.bheader)
  }
}
