/** What the parser makes of a byte stream, whatever the chunks it arrives in. */
module ParserStream {
  import opened Options
  import opened CText
  import opened HttpRequest
  import opened RequestParser
  import opened RequestText

  // ---- the header block alone decides what the line loop does

  /** Position of the header's end marker. */
  function EndMarker(stream: string): (at: Option<nat>) {
    StrStr(stream, HTTP_END, 0)
  }

  lemma {:induction false} MarkerChars(text: string, i: nat)
    requires MatchesAt(text, HTTP_END, i)
    ensures text[i] == '\r' && text[i + 1] == '\n' && text[i + 2] == '\r' && text[i + 3] == '\n'
    ensures MatchesAt(text, CRLF, i) && MatchesAt(text, CRLF, i + 2)
  {
    var m := text[i..i + 4];
    assert m[0] == text[i] && m[1] == text[i + 1] && m[2] == text[i + 2] && m[3] == text[i + 3];
  }

  lemma {:induction false} LineEndChars(text: string, e: nat)
    requires MatchesAt(text, CRLF, e)
    ensures text[e] == '\r' && text[e + 1] == '\n'
  {
    var m := text[e..e + 2];
    assert m[0] == text[e] && m[1] == text[e + 1];
  }

  /** The line that starts at `at` ends at or before the marker, or is the blank line inside it. */
  lemma {:induction false} NextLine(text: string, i: nat, at: nat) returns (e: nat)
    requires EndMarker(text) == Some(i) && (at <= i || at == i + 2)
    ensures StrStr(text, CRLF, at) == Some(e) == StrStr(text[..i + 4], CRLF, at)
    ensures at <= e && e + 2 <= i + 4 <= |text| && (e <= i || e == at == i + 2) && e + 2 != i + 1
    ensures text[at..e + 2] == text[..i + 4][at..e + 2]
  {
    hide StrStr;
    MarkerChars(text, i);
    StrStrFinds(text, CRLF, at, if at <= i then i else i + 2);
    e := StrStr(text, CRLF, at).value;
    LineEndChars(text, e);
    assert text == text[..i + 4] + text[i + 4..];
    StrStrPrefix(text[..i + 4], text[i + 4..], CRLF, at);
  }

  /** From a line start in the header, the loop never looks behind the end marker. */
  lemma {:induction false} LinesStayInHeader(f: Fields, text: string, i: nat, len: nat, at: nat, head: string)
    requires EndMarker(text) == Some(i) && i + 4 <= len && head == text[..i + 4]
    requires at <= i || at == i + 2
    ensures ReadLines(f, text, at, len) == ReadLines(f, head, at, |head|)
    decreases |text| - at
  {
    hide ReadLine, StrStr, EndMarker, IsLine;
    var e := NextLine(text, i, at);
    var line := head[at..e + 2];
    if e <= i && line != CRLF {
      LineAt(head, at, e);
      LinesStayInHeader(ReadLine(f, line).fields, text, i, len, e + 2, head);
    }
  }

  /** A block that does not begin with a blank line is read to its very end, unless a line is rejected. */
  lemma {:induction false} LinesReachEnd(f: Fields, head: string, at: nat)
    requires |head| >= 4 && EndMarker(head) == Some(|head| - 4)
    requires at == 0 || at == |head| - 2 || (2 <= at <= |head| - 4 && MatchesAt(head, CRLF, at - 2))
    requires at == 0 ==> !(CRLF <= head)
    ensures var r := ReadLines(f, head, at, |head|); r.ok ==> r.offset == |head|
    decreases |head| - at
  {
    hide ReadLine, StrStr, EndMarker, IsLine;
    var e := LineOfBlock(head, at);
    if at <= |head| - 4 {
      BlankLineIsMarker(head, at, e);
      LinesReachEnd(ReadLine(f, head[at..e + 2]).fields, head, e + 2);
    }
  }

  lemma {:induction false} LineOfBlock(head: string, at: nat) returns (e: nat)
    requires |head| >= 4 && EndMarker(head) == Some(|head| - 4) && (at <= |head| - 4 || at == |head| - 2)
    ensures StrStr(head, CRLF, at) == Some(e) && MatchesAt(head, CRLF, e) && IsLine(head[at..e + 2])
    ensures at <= e && (e <= |head| - 4 || e == at == |head| - 2) && e + 2 != |head| - 3
  {
    hide StrStr;
    assert head[..|head| - 4 + 4] == head;
    e := NextLine(head, |head| - 4, at);
    LineAt(head, at, e);
  }

  /** A blank line in the middle would be an earlier end marker. */
  lemma {:induction false} BlankLineIsMarker(head: string, at: nat, e: nat)
    requires EndMarker(head) == Some(|head| - 4) && at <= |head| - 4
    requires at == 0 || (at >= 2 && MatchesAt(head, CRLF, at - 2))
    requires at == 0 ==> !(CRLF <= head)
    requires at <= e && MatchesAt(head, CRLF, e)
    ensures head[at..e + 2] != CRLF
  {
    if head[at..e + 2] == CRLF {
      if at == 0 {
        assert false;
      } else {
        assert head[at - 2..at + 2] == head[at - 2..at] + head[at..at + 2];
        assert MatchesAt(head, HTTP_END, at - 2);
        assert false;
      }
    }
  }

  // ---- fields that the header block does not touch

  /** g differs from f at most in what header lines set. */
  ghost predicate SameFrame(f: Fields, g: Fields) {
    g.content == f.content && g.data == f.data && g.bheader == f.bheader
  }

  lemma {:induction false} LineFrame(f: Fields, line: string, data: string)
    requires IsLine(line)
    ensures var r := ReadLine(f, line);
            ReadLine(f.(data := data), line) == r.(fields := r.fields.(data := data)) && SameFrame(f, r.fields)
  {
    hide IndexOf, SkipAll, TrimUri, StopAt, Trim;
  }

  lemma {:induction false} LinesFrame(f: Fields, text: string, at: nat, len: nat, data: string)
    requires at <= |text|
    ensures var r := ReadLines(f, text, at, len);
            ReadLines(f.(data := data), text, at, len) == r.(fields := r.fields.(data := data))
            && SameFrame(f, r.fields)
    decreases |text| - at
  {
    hide StrStr, ReadLine, IsLine;
    match StrStr(text, CRLF, at)
    case None =>
    case Some(e) =>
      var line := text[at..e + 2];
      LineAt(text, at, e);
      if e + 2 < len && line != CRLF {
        LineFrame(f, line, data);
        LinesFrame(ReadLine(f, line).fields, text, e + 2, len, data);
      }
  }

  lemma {:induction false} ScanFrame(f: Fields, i: nat, data: string)
    requires i <= |f.headers|
    ensures var r, r' := ScanLength(f, i), ScanLength(f.(data := data), i);
            r' == r.(fields := r.fields.(data := data)) && r.fields.content == f.content && r.fields.data == f.data
    decreases |f.headers| - i
  {
    hide LexicalCastSize, HeadersEqual;
    if i < |f.headers| {
      if HeadersEqual(f.headers[i].name, CONTENT_LENGTH) {
        match LexicalCastSize(f.headers[i].value)
        case None =>
        case Some(n) => ScanFrame(f.(contentLength := n, bheader := true), i + 1, data);
      } else {
        ScanFrame(f, i + 1, data);
      }
    }
  }

  /** What a header block alone says: the same for every text that starts with it. */
  function Block(head: string): (result: LineResult) {
    ReadHeader(RESET, head, |head|)
  }

  lemma {:induction false} HeaderIsBlock(text: string, i: nat, len: nat, data: string)
    requires EndMarker(text) == Some(i) && i + 4 <= len
    ensures var b := Block(text[..i + 4]);
            ReadHeader(RESET.(data := data), text, len) == b.(fields := b.fields.(data := data))
            && b.fields.content == "" && b.fields.data == ""
  {
    hide ReadLines, ScanLength;
    var head := text[..i + 4];
    LinesStayInHeader(RESET.(data := data), text, i, len, 0, head);
    LinesFrame(RESET, head, 0, |head|, data);
    ScanFrame(ReadLines(RESET, head, 0, |head|).fields, 0, data);
  }

  // ---- the verdict on a stream

  /** What must have been answered once exactly these bytes have come in. */
  function StreamVerdict(stream: string): (verdict: Verdict) {
    match EndMarker(stream)
    case None => NeedMore
    case Some(i) =>
      var b := Block(stream[..i + 4]);
      if !b.ok then Reject
      else if |stream| - (i + 4) >= b.fields.contentLength then Accept
      else NeedMore
  }

  /** The request read from a stream whose last chunk came after `before`: when the header was
      already complete then, the body is cut to its declared length, else surplus bytes stay in. */
  function Received(before: string, stream: string): (g: Fields)
    requires EndMarker(stream).Some?
    requires var i := EndMarker(stream).value; |stream| - (i + 4) >= Block(stream[..i + 4]).fields.contentLength
  {
    var i := EndMarker(stream).value;
    var f := Block(stream[..i + 4]).fields;
    var body := stream[i + 4..];
    f.(content := if EndMarker(before).Some? then body[..f.contentLength] else body, data := stream)
  }

  /** The parser waits for more, having seen exactly the bytes of `stream`. */
  ghost predicate Tracks(s: Stage, f: Fields, stream: string) {
    match EndMarker(stream)
    case None => f == RESET.(data := stream) && (s == InHeader(stream) || (s == Fresh && stream == ""))
    case Some(i) =>
      var b := Block(stream[..i + 4]);
      s == InBody && b.ok && |stream| - (i + 4) < b.fields.contentLength &&
      f == b.fields.(content := stream[i + 4..], data := stream)
  }

  /** What one read delivers: the chunk itself, and the older bytes behind it in the buffer, up to
      the next NUL, which strstr can see as well. */
  datatype Read = Read(chunk: string, stale: string)

  /** No end marker begins in the chunk and ends behind it. */
  predicate Clear(r: Read) {
    var m := StrStr(r.chunk + r.stale, HTTP_END, 0);
    m.Some? && m.value < |r.chunk| ==> m.value + 4 <= |r.chunk|
  }

  function ParseRead(s: Stage, f: Fields, r: Read): (result: StepResult)
    requires s.InBody? ==> |f.content| < f.contentLength
  {
    ParseStep(s, f, r.chunk + r.stale, |r.chunk|)
  }

  /** The outcome of the call that brought the stream from `before` to `now`: the answer and the
      request depend only on the bytes received so far. */
  ghost predicate Follows(out: StepResult, before: string, now: string) {
    out.verdict == StreamVerdict(now) &&
    (out.verdict == NeedMore ==> Tracks(out.stage, out.fields, now)) &&
    (out.verdict != NeedMore ==> out.stage == Done) &&
    (out.verdict == Accept ==> EndMarker(now).Some? && out.fields == Received(before, now))
  }

  /** The call that completes the header, with `text` what it has before it. */
  lemma {:induction false} HeaderStepFollows(text: string, i: nat, len: nat, before: string, now: string)
    requires EndMarker(text) == EndMarker(now) == Some(i) && EndMarker(before).None?
    requires i + 4 <= len <= |text| && text[..len] == now
    ensures Follows(HeaderStep(RESET.(data := now), text, i + 4, len), before, now)
  {
    hide EndMarker, ReadHeader, Block;
    HeaderIsBlock(text, i, len, now);
    assert text[..i + 4] == now[..i + 4] && text[i + 4..len] == now[i + 4..];
    assert "" + now[i + 4..] == now[i + 4..];
  }

  lemma {:induction false} CollectFollows(before: string, now: string)
    requires EndMarker(before).None?
    ensures Follows(CollectStep(RESET.(data := now), now), before, now)
  {
    hide StrStr, HeaderStep, Received, Block;
    if EndMarker(now).Some? {
      assert now[..|now|] == now;
      HeaderStepFollows(now, EndMarker(now).value, |now|, before, now);
    }
  }

  lemma {:induction false} BodyFollows(f: Fields, stream: string, chunk: string)
    requires Tracks(InBody, f, stream)
    ensures |f.content| < f.contentLength
    ensures Follows(BodyStep(f.(data := stream + chunk), chunk), stream, stream + chunk)
  {
    hide StrStr, Block;
    var i, now := EndMarker(stream).value, stream + chunk;
    StrStrPrefix(stream, chunk, HTTP_END, 0);
    assert now[..i + 4] == stream[..i + 4];
    assert now[i + 4..] == stream[i + 4..] + chunk;
  }

  /** The first call: the stale bytes do not matter when no marker straddles the end of the chunk. */
  lemma {:induction false} FreshFollows(r: Read)
    requires Clear(r)
    ensures Follows(Step(Fresh, RESET.(data := r.chunk), r.chunk + r.stale, |r.chunk|), "", r.chunk)
  {
    hide StrStr, HeaderStep, CollectStep, Follows;
    var visible := r.chunk + r.stale;
    assert visible[..|r.chunk|] == r.chunk;
    StrStrPrefix(r.chunk, r.stale, HTTP_END, 0);
    EmptyUndecided();
    if EndMarker(r.chunk).Some? {
      HeaderStepFollows(visible, EndMarker(r.chunk).value, |r.chunk|, "", r.chunk);
    } else {
      CollectFollows("", r.chunk);
    }
  }

  lemma {:induction false} EmptyUndecided()
    ensures StreamVerdict("") == NeedMore && EndMarker("").None?
  {
  }

  /** Every answer of the parser depends only on the bytes received so far. */
  lemma {:induction false} ParseFollowsStream(s: Stage, f: Fields, stream: string, r: Read)
    requires Tracks(s, f, stream) && (s.Fresh? ==> Clear(r))
    ensures s.InBody? ==> |f.content| < f.contentLength
    ensures Follows(ParseRead(s, f, r), stream, stream + r.chunk)
  {
    hide StrStr, Block, HeaderStep, CollectStep, BodyStep, Follows;
    var now := stream + r.chunk;
    var g := f.(data := now);
    assert (r.chunk + r.stale)[..|r.chunk|] == r.chunk;
    match s
    case Fresh =>
      assert now == r.chunk && f == RESET;
      FreshFollows(r);
      NeverThrows(Step(s, g, r.chunk + r.stale, |r.chunk|), stream, now);
    case InHeader(_) =>
      assert g == RESET.(data := now);
      CollectFollows(stream, now);
      NeverThrows(CollectStep(g, now), stream, now);
    case InBody =>
      BodyFollows(f, stream, r.chunk);
      NeverThrows(BodyStep(g, r.chunk), stream, now);
  }

  lemma {:induction false} NeverThrows(out: StepResult, before: string, now: string)
    requires Follows(out, before, now)
    ensures out.verdict != Throws
  {
  }

  // ---- whole runs

  function Stream(feed: seq<Read>): (t: string) {
    if feed == [] then "" else Stream(feed[..|feed| - 1]) + feed[|feed| - 1].chunk
  }

  /** The number of calls made and the outcome of the last one. */
  datatype RunResult = RunResult(calls: nat, last: StepResult)

  /** One call per read on a fresh parser, until a call answers something else than NeedMore. */
  function Run(feed: seq<Read>): (r: RunResult)
    requires feed != [] ==> Clear(feed[0])
    ensures r.calls <= |feed| && (r.calls == 0 <==> feed == []) && (r.last.stage.Fresh? ==> feed == [])
    ensures r.last.verdict == NeedMore ==>
              r.calls == |feed| && Tracks(r.last.stage, r.last.fields, Stream(feed))
  {
    if feed == [] then RunResult(0, StepResult(Fresh, RESET, NeedMore))
    else
      var n := |feed| - 1;
      var before := Run(feed[..n]);
      if before.last.verdict != NeedMore then before
      else
        ParseFollowsStream(before.last.stage, before.last.fields, Stream(feed[..n]), feed[n]);
        RunResult(|feed|, ParseRead(before.last.stage, before.last.fields, feed[n]))
  }

  /** Before its last call the run was waiting for more. */
  lemma {:induction false} RunPrefix(feed: seq<Read>, k: nat)
    requires (feed != [] ==> Clear(feed[0])) && k < Run(feed).calls
    ensures Run(feed[..k]).last.verdict == NeedMore
  {
    hide ParseRead, Tracks, Clear, Stream;
    var n := |feed| - 1;
    if k < n {
      assert feed[..n][..k] == feed[..k];
      RunPrefix(feed[..n], k);
    }
  }

  /** What comes after its last call does not matter. */
  lemma {:induction false} RunStops(feed: seq<Read>)
    requires feed != [] ==> Clear(feed[0])
    ensures Run(feed[..Run(feed).calls]) == Run(feed)
  {
    hide ParseRead, Tracks, Clear, Stream;
    var c := Run(feed).calls;
    if c == |feed| {
      assert feed[..c] == feed;
    } else {
      var n := |feed| - 1;
      assert feed[..n][..c] == feed[..c];
      RunStops(feed[..n]);
    }
  }

  lemma {:induction false} TracksUndecided(s: Stage, f: Fields, stream: string)
    requires Tracks(s, f, stream)
    ensures StreamVerdict(stream) == NeedMore
  {
  }

  /** The run ends at the first call whose bytes decide the stream, with the answer to those bytes. */
  lemma {:induction false} RunFollowsStream(feed: seq<Read>)
    requires feed != [] && Clear(feed[0])
    ensures var r := Run(feed);
            Follows(r.last, Stream(feed[..r.calls - 1]), Stream(feed[..r.calls]))
            && forall k :: 0 <= k < r.calls ==> StreamVerdict(Stream(feed[..k])) == NeedMore
  {
    hide ParseRead, StreamVerdict, EndMarker, Tracks, Clear, Follows;
    var c := Run(feed).calls;
    var made := feed[..c];
    RunStops(feed);
    RunPrefix(made, c - 1);
    assert made[..c - 1] == feed[..c - 1];
    var before := Run(feed[..c - 1]).last;
    ParseFollowsStream(before.stage, before.fields, Stream(feed[..c - 1]), feed[c - 1]);
    forall k | 0 <= k < c ensures StreamVerdict(Stream(feed[..k])) == NeedMore {
      RunPrefix(feed, k);
      TracksUndecided(Run(feed[..k]).last.stage, Run(feed[..k]).last.fields, Stream(feed[..k]));
    }
  }

  /** Body framing: an accepted body begins with the declared number of stream bytes behind the
      header, and is longer only when the chunk that completed the header brought the surplus. */
  lemma {:induction false} BodyFraming(feed: seq<Read>)
    requires feed != [] && Clear(feed[0]) && Run(feed).last.verdict == Accept
    ensures var r := Run(feed);
            var before, now, f := Stream(feed[..r.calls - 1]), Stream(feed[..r.calls]), r.last.fields;
            EndMarker(now).Some? && f.data == now &&
            var start := EndMarker(now).value + 4;
            f.contentLength == Block(now[..start]).fields.contentLength <= |now| - start
            && f.contentLength <= |f.content| <= |now| - start && f.content == now[start..start + |f.content|]
            && (|f.content| > f.contentLength ==> EndMarker(before).None? && start + |f.content| == |now|)
  {
    hide Run, StrStr, Block, Stream;
    RunFollowsStream(feed);
  }

  /** A complete request: a header block that is accepted and exactly the body that it declares. */
  predicate Complete(message: string) {
    match EndMarker(message)
    case None => false
    case Some(i) => var b := Block(message[..i + 4]); b.ok && |message| == i + 4 + b.fields.contentLength
  }

  /** Nothing is decided before the last byte of a complete request. */
  lemma {:induction false} PrefixUndecided(message: string, n: nat)
    requires Complete(message) && n < |message|
    ensures StreamVerdict(message[..n]) == NeedMore && StreamVerdict(message) == Accept
    ensures Received(message[..n], message) == Received("", message)
  {
    hide Block, StrStr;
    assert message == message[..n] + message[n..];
    StrStrPrefix(message[..n], message[n..], HTTP_END, 0);
    var i := EndMarker(message).value;
    if EndMarker(message[..n]).Some? {
      assert message[..n][..i + 4] == message[..i + 4];
    }
  }

  lemma {:induction false} StreamPrefix(feed: seq<Read>, k: nat)
    requires k <= |feed|
    ensures |Stream(feed[..k])| <= |Stream(feed)| && Stream(feed[..k]) == Stream(feed)[..|Stream(feed[..k])|]
    ensures k < |feed| && (forall i :: 0 <= i < |feed| ==> feed[i].chunk != "")
        ==> |Stream(feed[..k])| < |Stream(feed)|
  {
    if k == |feed| {
      assert feed[..k] == feed;
    } else {
      var shorter := feed[..|feed| - 1];
      StreamPrefix(shorter, k);
      assert shorter[..k] == feed[..k];
    }
  }

  /** Chunk independence: however a complete request is split, all calls but the last ask for more
      and the last one accepts the request that the whole text gives in one piece. */
  lemma {:induction false} ChunkIndependence(message: string, feed: seq<Read>)
    requires Complete(message) && Stream(feed) == message && feed != [] && Clear(feed[0])
    requires forall i :: 0 <= i < |feed| ==> feed[i].chunk != ""
    ensures Run(feed) == RunResult(|feed|, StepResult(Done, Received("", message), Accept))
    ensures Run(feed) == Run([Read(message, "")]).(calls := |feed|)
  {
    hide Run, Received, Complete;
    RunOnMessage(message, feed);
    var whole := [Read(message, "")];
    assert whole[..0] == [] && Stream(whole) == "" + message == message;
    assert message + "" == message;
    RunOnMessage(message, whole);
  }

  lemma {:induction false} RunOnMessage(message: string, feed: seq<Read>)
    requires Complete(message) && Stream(feed) == message && feed != [] && Clear(feed[0])
    requires forall i :: 0 <= i < |feed| ==> feed[i].chunk != ""
    ensures Run(feed) == RunResult(|feed|, StepResult(Done, Received("", message), Accept))
  {
    hide Run, StreamVerdict, Received, Complete, EndMarker, Clear, Stream;
    var r := Run(feed);
    RunFollowsStream(feed);
    StreamPrefix(feed, r.calls);
    StreamPrefix(feed, |feed| - 1);
    assert feed[..|feed|] == feed && message[..|message|] == message;
    if r.calls < |feed| {
      PrefixUndecided(message, |Stream(feed[..r.calls])|);
    } else {
      PrefixUndecided(message, |Stream(feed[..|feed| - 1])|);
    }
  }

  /** A header block up to its end marker that the reader refuses. */
  ghost predicate RefusedBlock(head: string) {
    |head| >= 4 && EndMarker(head) == Some(|head| - 4) && !Block(head).ok
  }

  /** The last read brings the last byte of the block, and perhaps more. */
  ghost predicate Brings(feed: seq<Read>, head: string) {
    feed != [] && Clear(feed[0]) && head <= Stream(feed) && |Stream(feed[..|feed| - 1])| < |head|
  }

  /** A refused block is refused at the chunk that completes it, whatever else that chunk brings. */
  lemma {:induction false} RejectedAtCompletion(head: string, feed: seq<Read>)
    requires RefusedBlock(head) && Brings(feed, head)
    ensures Run(feed).calls == |feed| && Run(feed).last.verdict == Reject
  {
    hide StreamVerdict, Block, Run, Clear, Stream, EndMarker, RefusedBlock;
    var r := Run(feed);
    RunFollowsStream(feed);
    StreamPrefix(feed, |feed| - 1);
    HeadDecides(head, Stream(feed));
    if r.calls < |feed| {
      WithinHead(head, feed, r.calls);
      HeadUndecided(head, |Stream(feed[..r.calls])|);
    } else {
      assert feed[..r.calls] == feed;
    }
  }

  lemma {:induction false} WithinHead(head: string, feed: seq<Read>, k: nat)
    requires Brings(feed, head) && k < |feed|
    ensures |Stream(feed[..k])| < |head| && Stream(feed[..k]) == head[..|Stream(feed[..k])|]
  {
    hide Stream, Clear;
    assert feed[..|feed| - 1][..k] == feed[..k];
    StreamPrefix(feed, k);
    StreamPrefix(feed[..|feed| - 1], k);
  }

  /** Nothing is decided before the last byte of a refused header block. */
  lemma {:induction false} HeadUndecided(head: string, n: nat)
    requires RefusedBlock(head) && n < |head|
    ensures StreamVerdict(head[..n]) == NeedMore
  {
    hide Block, StrStr;
    assert head == head[..n] + head[n..];
    StrStrPrefix(head[..n], head[n..], HTTP_END, 0);
  }

  lemma {:induction false} HeadDecides(head: string, stream: string)
    requires RefusedBlock(head) && head <= stream
    ensures StreamVerdict(stream) == Reject
  {
    hide Block, StrStr;
    assert stream == head + stream[|head|..];
    StrStrPrefix(head, stream[|head|..], HTTP_END, 0);
    assert stream[..|head| - 4 + 4] == head;
  }

  /** Non-empty chunks of the block alone do bring it. */
  lemma {:induction false} BringsAlone(feed: seq<Read>)
    requires feed != [] && Clear(feed[0]) && forall i :: 0 <= i < |feed| ==> feed[i].chunk != ""
    ensures Brings(feed, Stream(feed))
  {
    StreamPrefix(feed, |feed| - 1);
  }

  // ---- which blocks are refused

  lemma {:induction false} NoLinesRefused(head: string)
    requires |head| >= 4 && EndMarker(head) == Some(|head| - 4) && CRLF <= head
    ensures RefusedBlock(head)
  {
    hide EndMarker;
    assert head[0..2] == CRLF;
  }

  /** A block whose first line is not rejected: so much of the line loop is known. */
  lemma {:induction false} FirstLineRefused(head: string, e: nat)
    requires |head| >= 4 && EndMarker(head) == Some(|head| - 4) && StrStr(head, CRLF, 0) == Some(e)
    requires 0 < e <= |head| - 4 && IsLine(head[..e + 2]) && !ReadLine(RESET, head[..e + 2]).ok
    ensures RefusedBlock(head)
  {
    hide EndMarker, StrStr, ReadLine, ScanLength;
    assert head[0..e + 2] == head[..e + 2];
  }

  /** A block that does not begin with "POST " is refused. */
  lemma {:induction false} NotPostRefused(head: string)
    requires |head| >= 4 && EndMarker(head) == Some(|head| - 4) && !(POST <= head)
    ensures RefusedBlock(head)
  {
    hide EndMarker, StrStr, RefusedBlock;
    var e := LineOfBlock(head, 0);
    if e == 0 {
      LineEndChars(head, 0);
      assert CRLF <= head;
      NoLinesRefused(head);
    } else {
      assert head[..e + 2] == head[0..e + 2];
      FirstLineRefused(head, e);
    }
  }

  /** So is one whose request line has no second space, or asks for "/" alone. */
  lemma {:induction false} NoTargetRefused(head: string, blanks: string, rest: string, more: string)
    requires |head| >= 4 && EndMarker(head) == Some(|head| - 4) && head == POST + blanks + rest + CRLF + more
    requires AllBlank(blanks) && IsPlain(rest) && ' ' !in rest
    ensures RefusedBlock(head)
  {
    hide EndMarker, StrStr, RefusedBlock, UriLine;
    var line := POST + blanks + rest;
    PlainRequestLine(blanks, rest);
    assert head == line + CRLF + more && head[0..|line| + 2] == line + CRLF;
    LineFound(head, 0, line);
    MarkerBehind(head, |line|);
    LineAt(head, 0, |line|);
    assert head[..|line| + 2] == head[0..|line| + 2] == POST + blanks + (rest + CRLF);
    UriLineRefuses(RESET, blanks, rest + CRLF);
    FirstLineRefused(head, |line|);
  }

  lemma {:induction false} RootRefused(head: string, blanks: string, version: string, more: string)
    requires |head| >= 4 && EndMarker(head) == Some(|head| - 4)
    requires head == POST + blanks + ("/ " + version) + CRLF + more
    requires AllBlank(blanks) && IsPlain(version) && ' ' !in version
    ensures RefusedBlock(head)
  {
    hide EndMarker, StrStr, RefusedBlock, UriLine;
    var rest := "/ " + version;
    var line := POST + blanks + rest;
    PlainRequestLine(blanks, rest);
    assert head == line + CRLF + more && head[0..|line| + 2] == line + CRLF;
    LineFound(head, 0, line);
    MarkerBehind(head, |line|);
    LineAt(head, 0, |line|);
    assert head[..|line| + 2] == head[0..|line| + 2] == POST + blanks + (rest + CRLF);
    assert (rest + CRLF)[2..] == version + CRLF;
    UriLineRefuses(RESET, blanks, rest + CRLF);
    FirstLineRefused(head, |line|);
  }

  lemma {:induction false} PlainRequestLine(blanks: string, rest: string)
    requires AllBlank(blanks) && IsPlain(rest)
    ensures IsPlain(POST + blanks + rest)
  {
    assert IsPlain(POST) && IsPlain(blanks);
  }

  /** The line ends at or before the marker. */
  lemma {:induction false} MarkerBehind(head: string, e: nat)
    requires |head| >= 4 && EndMarker(head) == Some(|head| - 4) && StrStr(head, CRLF, 0) == Some(e)
    ensures e <= |head| - 4
  {
    hide EndMarker, StrStr;
    var e' := LineOfBlock(head, 0);
  }

  /** A rendered block is accepted exactly when it has a Content-Length and all of them cast to a size. */
  lemma {:induction false} RenderedBlockExactly(t: Target, hs: seq<Header>)
    requires t.Valid() && AllCanonical(hs)
    ensures Block(HeadText(t, hs)).ok <==> HasLength(hs) && LengthsCast(hs)
  {
    hide StrStr, ReadLines, ScanLength, HeadText, HasLength, LengthsCast;
    HeadReadsBack(RESET, t, hs);
    var f := AddHeaders(RESET.(verb := RESET.verb + "POST", uri := TrimUri(t.uri)), hs);
    assert f.headers == hs;
    ScanExactly(f);
  }

  lemma {:induction false} RenderedMarker(t: Target, hs: seq<Header>)
    requires t.Valid() && AllCanonical(hs)
    ensures |HeadText(t, hs)| >= 4 && EndMarker(HeadText(t, hs)) == Some(|HeadText(t, hs)| - 4)
  {
    hide StrStr, HeadText;
    HeadMarker(t, hs, "");
    assert HeadText(t, hs) + "" == HeadText(t, hs);
  }

  // ---- old bytes behind the chunk

  /** A marker that straddles the end of the first chunk makes the first call fail. */
  lemma {:induction false} StraddleRejects(r: Read)
    requires !Clear(r)
    ensures ParseRead(Fresh, RESET, r).verdict == Reject && ParseRead(Fresh, RESET, r).stage == Done
    ensures EndMarker(r.chunk).None?
  {
    hide StrStr, ReadHeader;
    StrStrPrefix(r.chunk, r.stale, HTTP_END, 0);
  }

  /** With no such marker the whole outcome is that of the chunk alone: verdict, stage and request. */
  lemma {:induction false} ClearIsAlone(r: Read)
    requires Clear(r)
    ensures ParseRead(Fresh, RESET, r) == ParseRead(Fresh, RESET, Read(r.chunk, ""))
  {
    hide StrStr, Block, ReadHeader, CollectStep;
    var visible, n := r.chunk + r.stale, |r.chunk|;
    assert r.chunk + "" == r.chunk == "" + r.chunk && visible[..n] == r.chunk == r.chunk[..n];
    StrStrPrefix(r.chunk, r.stale, HTTP_END, 0);
    if EndMarker(r.chunk).Some? {
      var i := EndMarker(r.chunk).value;
      HeaderIsBlock(visible, i, n, r.chunk);
      HeaderIsBlock(r.chunk, i, n, r.chunk);
      assert visible[..i + 4] == r.chunk[..i + 4] && visible[i + 4..n] == r.chunk[i + 4..n];
    }
  }

  /** The stale bytes of the first read change its outcome exactly when an end marker straddles the
      end of the chunk, and then they change the verdict. */
  lemma {:induction false} StaleBytesMatter(r: Read)
    ensures ParseRead(Fresh, RESET, r) == ParseRead(Fresh, RESET, Read(r.chunk, "")) <==> Clear(r)
    ensures ParseRead(Fresh, RESET, r).verdict == ParseRead(Fresh, RESET, Read(r.chunk, "")).verdict <==> Clear(r)
  {
    hide StrStr, Block, ParseRead;
    var alone := Read(r.chunk, "");
    if Clear(r) {
      ClearIsAlone(r);
    } else {
      assert r.chunk + "" == r.chunk == "" + r.chunk;
      ParseFollowsStream(Fresh, RESET, "", alone);
      StraddleRejects(r);
    }
  }

  /** A header that arrives without its very last byte, while a newline is left over from an earlier
      and longer read, is refused instead of being waited for. */
  lemma {:induction false} StaleNewlineRejects(head: string)
    requires |head| >= 4 && EndMarker(head) == Some(|head| - 4)
    ensures var r := Read(head[..|head| - 1], "\n");
            ParseRead(Fresh, RESET, r).verdict == Reject &&
            ParseRead(Fresh, RESET, Read(r.chunk, "")).verdict == NeedMore
  {
    hide StrStr, ReadHeader, Block;
    var r := Read(head[..|head| - 1], "\n");
    MarkerChars(head, |head| - 4);
    assert r.chunk + r.stale == head;
    StrStrPrefix(r.chunk, r.stale, HTTP_END, 0);
    assert r.chunk + "" == r.chunk == "" + r.chunk;
    ParseFollowsStream(Fresh, RESET, "", Read(r.chunk, ""));
  }

  // ---- rendered requests

  /** The headers declare a body of n bytes. */
  predicate Declares(hs: seq<Header>, n: nat) {
    var r := ScanLength(RESET.(headers := hs), 0);
    r.ok && r.fields.bheader && r.fields.contentLength == n
  }

  lemma {:induction false} ScanOnlyHeaders(f: Fields, g: Fields, i: nat)
    requires i <= |f.headers| && g.headers == f.headers && g.bheader == f.bheader && g.contentLength == f.contentLength
    ensures var r, r' := ScanLength(f, i), ScanLength(g, i);
            r.ok == r'.ok && r'.fields == g.(bheader := r.fields.bheader, contentLength := r.fields.contentLength)
    decreases |f.headers| - i
  {
    hide LexicalCastSize, HeadersEqual;
    if i < |f.headers| {
      if HeadersEqual(f.headers[i].name, CONTENT_LENGTH) {
        match LexicalCastSize(f.headers[i].value)
        case None =>
        case Some(n) =>
          ScanOnlyHeaders(f.(contentLength := n, bheader := true), g.(contentLength := n, bheader := true), i + 1);
      } else {
        ScanOnlyHeaders(f, g, i + 1);
      }
    }
  }

  /** The request that stands for the rendered text. */
  function Rendered(t: Target, hs: seq<Header>, body: string): (g: Fields)
    ensures g.headers == hs && g.major == g.minor == 0
  {
    AddHeaders(RESET, hs).(verb := "POST", uri := TrimUri(t.uri), content := body, bheader := true,
                           contentLength := |body|, data := HeadText(t, hs) + body)
  }

  /** Every rendered request is complete, and reads back as what was rendered. */
  lemma {:induction false} RenderedIsComplete(t: Target, hs: seq<Header>, body: string)
    requires t.Valid() && AllCanonical(hs) && Declares(hs, |body|)
    ensures Complete(HeadText(t, hs) + body) && Received("", HeadText(t, hs) + body) == Rendered(t, hs, body)
  {
    hide StrStr, ReadLines, ScanLength, HeadText;
    var head := HeadText(t, hs);
    var f := RESET.(verb := "POST", uri := TrimUri(t.uri));
    HeadMarker(t, hs, body);
    HeadReadsBack(RESET, t, hs);
    assert (head + body)[..|head|] == head && (head + body)[|head|..] == body && body[..|body|] == body;
    assert RESET.(verb := RESET.verb + "POST", uri := TrimUri(t.uri)) == f;
    AddHeadersFrame(RESET, "POST", TrimUri(t.uri), hs);
    ScanOnlyHeaders(RESET.(headers := hs), AddHeaders(f, hs), 0);
  }

  lemma {:induction false} AddHeadersFrame(f: Fields, verb: string, uri: string, hs: seq<Header>)
    ensures AddHeaders(f.(verb := verb, uri := uri), hs) == AddHeaders(f, hs).(verb := verb, uri := uri)
    decreases |hs|
  {
    if hs != [] {
      AddHeadersFrame(AddHeader(f, hs[0]), verb, uri, hs[1..]);
    }
  }

  /** One Content-Length header with the decimal length, wherever it stands, declares the body. */
  lemma {:induction false} DecimalDeclares(before: seq<Header>, n: nat, after: seq<Header>)
    requires n < SIZE_MODULUS
    requires forall h :: h in before + after ==> !HeadersEqual(h.name, CONTENT_LENGTH)
    ensures Declares(before + [Header(CONTENT_LENGTH, Decimal(n))] + after, n)
  {
    hide LexicalCastSize, LowerCase;
    var hs := before + [Header(CONTENT_LENGTH, Decimal(n))] + after;
    var f := RESET.(headers := hs);
    forall h | h in before ensures h in before + after {}
    forall h | h in after ensures h in before + after {}
    ScanSkips(f, 0, |before|);
    DecimalReadsBack(n);
    ScanSkips(f.(contentLength := n, bheader := true), |before| + 1, |hs|);
  }

  lemma {:induction false} ScanSkips(f: Fields, i: nat, j: nat)
    requires i <= j <= |f.headers|
    requires forall k :: i <= k < j ==> !HeadersEqual(f.headers[k].name, CONTENT_LENGTH)
    ensures ScanLength(f, i) == ScanLength(f, j)
    decreases j - i
  {
    if i < j {
      ScanSkips(f, i + 1, j);
    }
  }
}
