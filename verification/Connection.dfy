/** One client connection: requests are read, handled and answered, one after the other. */
module Connection {
  import opened Options
  import opened CText
  import opened HttpRequest
  import opened RequestParser
  import opened RequestText
  import opened ParserStream
  import opened UrlCoding
  import opened HttpReply

  // ---- the request handler

  /** The registered functions, by path or command. */
  type Handlers = map<string, string -> string>

  datatype Call = Call(key: string, content: string)

  datatype Handled = Handled(reply: ReplyValue, calls: seq<Call>)

  /** The key under which a request is handled: its path, or else its User-cmd header. */
  function FindKey(h: Handlers, path: string, cmd: string): (key: Option<string>)
    ensures key.Some? ==> key.value in h
  {
    if path in h then Some(path) else if cmd != "" && cmd in h then Some(cmd) else None
  }

  /** HandleRequest on values; `reply` is what the connection answered last. */
  function Handle(h: Handlers, f: Fields, reply: ReplyValue): (handled: Handled) {
    var path := Decode(f.uri);
    if path.None? then Handled(StockReplyValue(BadRequest), [])
    else
      match FindKey(h, path.value, f.cmd)
      case None => Handled(reply.(status := NotFound), [])
      case Some(key) =>
        var out := h[key](f.content);
        Handled(OkReply(if key == "echo" || key == "/echo" then f.data else out), [Call(key, f.content)])
  }

  /** The path decides whenever it is registered; only then the User-cmd header; else nothing is called.
      An echo is answered with the raw request. */
  lemma {:induction false} HandleDispatches(h: Handlers, f: Fields, reply: ReplyValue, path: string)
    requires Decode(f.uri) == Some(path)
    ensures var r := Handle(h, f, reply);
            (path in h ==> r.calls == [Call(path, f.content)] && r.reply == AnswerTo(h, path, f))
            && (path !in h && f.cmd != "" && f.cmd in h ==>
                  r.calls == [Call(f.cmd, f.content)] && r.reply == AnswerTo(h, f.cmd, f))
            && (path !in h && (f.cmd == "" || f.cmd !in h) ==>
                  r.calls == [] && r.reply == ReplyValue(NotFound, reply.headers, reply.content))
  {
    hide Decode;
  }

  /** The answer of the function registered under `key`. */
  function AnswerTo(h: Handlers, key: string, f: Fields): (answer: ReplyValue)
    requires key in h
  {
    var text := if key in ["echo", "/echo"] then f.data else h[key](f.content);
    ReplyValue(Ok, [Header("Content-Length", Decimal(|text|)), Header("Content-Type", "text/plain")], text)
  }

  /** A path that does not decode is answered with the 400 page, and nothing is called. */
  lemma {:induction false} UndecodableRefused(h: Handlers, f: Fields, reply: ReplyValue)
    requires Decode(f.uri).None?
    ensures var r := Handle(h, f, reply);
            r.calls == [] && r.reply.status == BadRequest && r.reply.content == StockContent(BadRequest)
  {
  }

  class Handler {
    const handlers: Handlers

    constructor (handlers: Handlers)
      ensures this.handlers == handlers
    {
      this.handlers := handlers;
    }

    method HandleRequest(req: Request, rep: Reply) returns (ghost calls: seq<Call>)
      modifies rep
      ensures Handled(rep.Value(), calls) == Handle(handlers, req.Value(), old(rep.Value()))
    {
      hide DecodeFrom;
      var ok, path := UrlDecode(req.uri);
      if !ok {
        var stock := new Reply.Stock(BadRequest);
        rep.Assign(stock);
        return [];
      }
      calls := ProcessRequest(path, req, rep);
    }

    method ProcessRequest(path: string, req: Request, rep: Reply) returns (ghost calls: seq<Call>)
      modifies rep
      ensures match FindKey(handlers, path, req.reqCmd)
              case None => rep.Value() == old(rep.Value()).(status := NotFound) && calls == []
              case Some(key) =>
                calls == [Call(key, req.content)] &&
                rep.Value() == OkReply(if key == "echo" || key == "/echo" then req.httpReqData
                                       else handlers[key](req.content))
    {
      var key := path;
      if path !in handlers {
        if req.reqCmd != "" && req.reqCmd in handlers {
          key := req.reqCmd;
        } else {
          rep.status := NotFound;
          return [];
        }
      }
      var out := handlers[key](req.content);
      calls := [Call(key, req.content)];
      if key == "echo" || key == "/echo" {
        rep.BuildReply(req.httpReqData);
      } else {
        rep.BuildReply(out);
      }
    }
  }

  // ---- a connection as a state machine

  /** One of the headers is Connection: keep-alive, in any case. */
  predicate KeepAlive(hs: seq<Header>) {
    exists i :: 0 <= i < |hs| && IsKeepAlive(hs[i])
  }

  predicate IsKeepAlive(h: Header) {
    LowerCase(h.name) == "connection" && LowerCase(h.value) == "keep-alive"
  }

  /** The fields of the connection; how many asynchronous reads and writes are under way and how
      often the manager was asked to stop; the reply the pending write was started with; and what
      has been asked (None for a refused request), called and written so far. */
  datatype Conn = Conn(isLong: bool, stage: Stage, fields: Fields, reply: ReplyValue,
                       pendingReads: nat, pendingWrites: nat, stops: nat, wire: ReplyValue,
                       asked: seq<Option<Fields>>, calls: seq<Call>, sent: seq<ReplyValue>)

  /** A read or a write under way completes, well or badly. */
  datatype Event = ReadDone(r: Read) | ReadFailed | WriteDone | WriteFailed

  predicate Enabled(c: Conn, e: Event) {
    if e.ReadDone? || e.ReadFailed? then c.pendingReads > 0 else c.pendingWrites > 0
  }

  /** The reply is empty, or it says how long it is. */
  predicate Announced(r: ReplyValue) {
    (r.headers == [] && r.content == "") || Framed(r)
  }

  /** What holds between any two callbacks: one operation is under way, or the manager has been asked
      to stop the connection; while reading, the parser waits for more of the stream that the request
      has recorded; while writing, the request is reset, the buffers still show the reply, and the
      parser is a new one unless the reply ends the connection. */
  ghost predicate Invariant(c: Conn) {
    c.pendingReads + c.pendingWrites + c.stops == 1 &&
    (c.pendingReads == 1 ==> Tracks(c.stage, c.fields, c.fields.data)) &&
    (c.pendingWrites == 1 ==> c.fields == RESET && c.wire == c.reply && (c.stage == Fresh || c.reply.status != Ok))
  }

  /** HandleRead and HandleWrite. */
  function Next(h: Handlers, c: Conn, e: Event): (after: Conn)
    requires Invariant(c) && Enabled(c, e)
  {
    match e
    case ReadDone(r) =>
      var out := ParseRead(c.stage, c.fields, r);
      var c := c.(stage := out.stage, fields := out.fields, pendingReads := c.pendingReads - 1);
      (match out.verdict
       case Accept =>
         var handled := Handle(h, out.fields, c.reply);
         StartWrite(c.(stage := Fresh, isLong := c.isLong || KeepAlive(out.fields.headers), fields := RESET,
                       reply := handled.reply, asked := c.asked + [Some(out.fields)],
                       calls := c.calls + handled.calls))
       case NeedMore => c.(pendingReads := c.pendingReads + 1)
       case _ => StartWrite(c.(fields := RESET, reply := StockReplyValue(BadRequest), asked := c.asked + [None])))
    case ReadFailed => c.(pendingReads := c.pendingReads - 1, stops := c.stops + 1)
    case WriteDone =>
      var c := c.(pendingWrites := c.pendingWrites - 1, sent := c.sent + [c.wire]);
      if c.reply.status != Ok || !c.isLong then c.(stops := c.stops + 1)
      else c.(pendingReads := c.pendingReads + 1)
    case WriteFailed => c.(pendingWrites := c.pendingWrites - 1, stops := c.stops + 1)
  }

  /** async_write of the reply's buffers, which stay in place until it completes. */
  function StartWrite(c: Conn): (after: Conn) {
    c.(pendingWrites := c.pendingWrites + 1, wire := c.reply)
  }

  lemma {:induction false} NextKeeps(h: Handlers, c: Conn, e: Event)
    requires Invariant(c) && Enabled(c, e)
    ensures Invariant(Next(h, c, e))
  {
    hide Handle, StockContent, Decimal, ParseRead;
    match e
    case ReadDone(r) =>
      if c.stage == Fresh && !Clear(r) {
        assert c.fields == RESET;
        StraddleRejects(r);
      } else {
        ParseFollowsStream(c.stage, c.fields, c.fields.data, r);
      }
    case WriteDone => FreshTracks();
    case _ =>
  }

  lemma {:induction false} FreshTracks()
    ensures Tracks(Fresh, RESET, "")
  {
  }

  /** A run: None when an event completes an operation that is not under way. */
  function RunEvents(h: Handlers, c: Conn, es: seq<Event>): (r: Option<Conn>)
    requires Invariant(c)
    ensures r.Some? ==> Invariant(r.value)
  {
    if es == [] then Some(c)
    else
      var n := |es| - 1;
      var before := RunEvents(h, c, es[..n]);
      if before.None? || !Enabled(before.value, es[n]) then None
      else
        NextKeeps(h, before.value, es[n]);
        Some(Next(h, before.value, es[n]))
  }

  /** A connection after a successful Start. */
  function Opened(reply: ReplyValue): (c: Conn)
    ensures Invariant(c)
  {
    FreshTracks();
    Conn(false, Fresh, RESET, reply, 1, 0, 0, reply, [], [], [])
  }

  // Two readings of what NextKeeps proves.

  /** While a write is under way only its completion can happen, and it leaves the reply alone. */
  lemma {:induction false} WriteKeepsReply(h: Handlers, c: Conn, e: Event)
    requires Invariant(c) && Enabled(c, e) && c.pendingWrites > 0
    ensures (e.WriteDone? || e.WriteFailed?) && Next(h, c, e).reply == c.reply == c.wire
  {
  }

  /** The parser is never resumed after it has answered Accept or Reject, and a parser that was not
      entered yet is handed a reset request. */
  lemma {:induction false} ParserNeverReentered(h: Handlers, reply: ReplyValue, es: seq<Event>, r: Read)
    requires RunEvents(h, Opened(reply), es + [ReadDone(r)]).Some?
    ensures var c := RunEvents(h, Opened(reply), es);
            c.Some? && !c.value.stage.Done?
            && (c.value.stage.Fresh? ==> c.value.fields == RESET)
  {
    hide Next;
    assert (es + [ReadDone(r)])[..|es|] == es;
  }

  /** A read or write that fails is the end: the manager is asked once to stop the connection, nothing is
      under way, no further event can happen, and the rest is as before. */
  lemma {:induction false} FailureStops(h: Handlers, reply: ReplyValue, es: seq<Event>, e: Event)
    requires e.ReadFailed? || e.WriteFailed?
    requires RunEvents(h, Opened(reply), es + [e]).Some?
    ensures RunEvents(h, Opened(reply), es).Some?
    ensures var before, after := RunEvents(h, Opened(reply), es).value, RunEvents(h, Opened(reply), es + [e]).value;
            after.stops == 1 && after.pendingReads == 0 && after.pendingWrites == 0
            && (forall e' :: !Enabled(after, e'))
            && after == before.(pendingReads := 0, pendingWrites := 0, stops := 1)
  {
    hide Handle, ParseRead, Tracks;
    assert (es + [e])[..|es|] == es;
  }

  /** A completed write is the end exactly when the reply was no success or nobody asked to keep the
      connection; otherwise the next read is under way. */
  lemma {:induction false} WriteDoneExactly(h: Handlers, reply: ReplyValue, es: seq<Event>)
    requires RunEvents(h, Opened(reply), es + [WriteDone]).Some?
    ensures RunEvents(h, Opened(reply), es).Some?
    ensures var before := RunEvents(h, Opened(reply), es).value;
            var after := RunEvents(h, Opened(reply), es + [WriteDone]).value;
            var stays := before.reply.status == Ok && before.isLong;
            after.sent == before.sent + [before.reply] && after.pendingWrites == 0
            && after.pendingReads == (if stays then 1 else 0) && after.stops == (if stays then 0 else 1)
  {
    hide Handle, ParseRead, Tracks;
    assert (es + [WriteDone])[..|es|] == es;
  }

  /** Over every run the connection is kept exactly if one of the accepted requests asked for it. */
  lemma {:induction false} KeptIfAsked(h: Handlers, reply: ReplyValue, es: seq<Event>)
    requires RunEvents(h, Opened(reply), es).Some?
    ensures var c := RunEvents(h, Opened(reply), es).value;
            c.isLong <==> exists i :: 0 <= i < |c.asked| && AsksToKeep(c.asked[i])
  {
    hide Next, Tracks;
    if es != [] {
      var n := |es| - 1;
      KeptIfAsked(h, reply, es[..n]);
      var c := RunEvents(h, Opened(reply), es[..n]).value;
      NextAsked(h, c, es[n]);
      hide AsksToKeep;
      KeptNext(c.asked, Next(h, c, es[n]).asked);
    }
  }

  predicate AsksToKeep(q: Option<Fields>) {
    q.Some? && KeepAlive(q.value.headers)
  }

  lemma {:induction false} NextAsked(h: Handlers, c: Conn, e: Event)
    requires Invariant(c) && Enabled(c, e)
    ensures var n := Next(h, c, e);
            if |n.asked| == |c.asked| then n.asked == c.asked && n.isLong == c.isLong
            else |n.asked| == |c.asked| + 1 && n.asked[..|c.asked|] == c.asked
                 && (n.isLong <==> c.isLong || AsksToKeep(n.asked[|c.asked|]))
  {
    hide Handle, ParseRead, Tracks, KeepAlive, StockContent, Decimal;
  }

  lemma {:induction false} KeptNext(asked: seq<Option<Fields>>, now: seq<Option<Fields>>)
    requires |now| == |asked| + 1 ==> now[..|asked|] == asked
    ensures |now| == |asked| + 1 ==>
              ((exists i :: 0 <= i < |now| && AsksToKeep(now[i])) <==>
               (exists i :: 0 <= i < |asked| && AsksToKeep(asked[i])) || AsksToKeep(now[|asked|]))
  {
    if |now| == |asked| + 1 {
      forall i | 0 <= i < |asked| ensures now[i] == asked[i] {
        assert now[..|asked|][i] == asked[i];
      }
    }
  }

  /** In any case of letters. */
  lemma {:induction false} KeepAliveExample()
    ensures IsKeepAlive(Header("Connection", "Keep-Alive")) && !IsKeepAlive(Header("Connection", "close"))
  {
    assert LowerCase("Connection") == "connection" && LowerCase("Keep-Alive") == "keep-alive";
    assert LowerCase("close") == "close";
  }

  // ---- every reply on the wire announces its length

  /** The strings involved are not longer than a size_t can say. */
  ghost predicate Sizes(h: Handlers, c: Conn, e: Event) {
    (forall key, text :: key in h ==> |h[key](text)| < SIZE_MODULUS) &&
    (e.ReadDone? ==> |c.fields.data| + |e.r.chunk| < SIZE_MODULUS)
  }

  lemma {:induction false} StockFramed(s: Status)
    requires s == BadRequest
    ensures Framed(StockReplyValue(s))
  {
    hide Framed, Decimal;
    assert |StockContent(BadRequest)| < SIZE_MODULUS;
    WithContentFramed(s, StockContent(s), "text/html");
  }

  /** The path decodes, and neither it nor the User-cmd header names a registered function. */
  predicate Unregistered(h: Handlers, f: Fields) {
    Decode(f.uri).Some? && FindKey(h, Decode(f.uri).value, f.cmd).None?
  }

  /** A reply declares its length exactly when the request is not of this kind, or the connection's
      previous reply declared one. */
  lemma {:induction false} HandleFramedExactly(h: Handlers, f: Fields, reply: ReplyValue)
    requires forall key, text :: key in h ==> |h[key](text)| < SIZE_MODULUS
    requires |f.data| < SIZE_MODULUS
    ensures Framed(Handle(h, f, reply).reply) <==> !Unregistered(h, f) || Framed(reply)
    ensures Handle(h, f, reply).reply.status == NotFound <==> Unregistered(h, f)
    ensures Unregistered(h, f) ==> Handle(h, f, reply) == Handled(reply.(status := NotFound), [])
  {
    hide Framed, StockContent, Decimal, Decode;
    StockFramed(BadRequest);
    var path := Decode(f.uri);
    if path.Some? {
      match FindKey(h, path.value, f.cmd)
      case None =>
        FramedIgnoresStatus(reply, NotFound);
      case Some(key) =>
        WithContentFramed(Ok, if key == "echo" || key == "/echo" then f.data else h[key](f.content), "text/plain");
    }
  }

  lemma {:induction false} FramedIgnoresStatus(r: ReplyValue, s: Status)
    ensures Framed(r.(status := s)) == Framed(r)
  {
  }

  lemma {:induction false} EmptyIsNotFramed(s: Status)
    ensures !Framed(ReplyValue(s, [], ""))
  {
  }

  /** The request asks for a reply without a length of its own. */
  predicate Bare(h: Handlers, asked: Option<Fields>) {
    asked.Some? && Unregistered(h, asked.value)
  }

  /** A reply that a connection starts to write says how long its content is exactly when the request
      is not bare or the reply before said it. */
  lemma {:induction false} RepliesAnnounced(h: Handlers, c: Conn, e: Event)
    requires Invariant(c) && Enabled(c, e) && Sizes(h, c, e) && e.ReadDone? && Next(h, c, e).pendingWrites > 0
    ensures var n := Next(h, c, e);
            |n.asked| == |c.asked| + 1 && n.asked[..|c.asked|] == c.asked &&
            var q := n.asked[|c.asked|];
            (Framed(n.reply) <==> !Bare(h, q) || Framed(c.reply)) && (n.reply.status == NotFound <==> Bare(h, q))
            && (Bare(h, q) ==> n.reply == c.reply.(status := NotFound))
  {
    hide Handle, StockContent, Framed, Block, Decimal, Unregistered;
    StockFramed(BadRequest);
    var out := ParseRead(c.stage, c.fields, e.r);
    ParseKeepsData(c.stage, c.fields, e.r);
    HandleFramedExactly(h, out.fields, c.reply);
  }

  lemma {:induction false} ParseKeepsData(s: Stage, f: Fields, r: Read)
    requires s.InBody? ==> |f.content| < f.contentLength
    ensures |ParseRead(s, f, r).fields.data| == |f.data| + |r.chunk|
  {
    hide ReadLines, ScanLength, StrStr;
    var visible := r.chunk + r.stale;
    var g := f.(data := f.data + visible[..|r.chunk|]);
    ReadHeaderKeepsData(g, visible, |r.chunk|);
    if s.InHeader? {
      ReadHeaderKeepsData(g, s.received + visible[..|r.chunk|], |s.received + visible[..|r.chunk|]|);
    } else {
      ReadHeaderKeepsData(g, visible[..|r.chunk|], |visible[..|r.chunk|]|);
    }
  }

  lemma {:induction false} ReadHeaderKeepsData(f: Fields, text: string, len: nat)
    ensures ReadHeader(f, text, len).fields.data == f.data
  {
    LinesFrame(f, text, 0, len, f.data);
    ScanFrame(ReadLines(f, text, 0, len).fields, 0, f.data);
  }

  /** The bytes that a run has delivered. */
  function BytesRead(es: seq<Event>): (n: nat) {
    if es == [] then 0
    else
      var e := es[|es| - 1];
      BytesRead(es[..|es| - 1]) + if e.ReadDone? then |e.r.chunk| else 0
  }

  /** The reply to request i: only a bare request that comes first gets one without a length. */
  ghost predicate AnswersTo(h: Handlers, asked: seq<Option<Fields>>, i: nat, r: ReplyValue)
    requires i < |asked|
  {
    (r.status == NotFound <==> Bare(h, asked[i])) &&
    if i == 0 && Bare(h, asked[0]) then r == ReplyValue(NotFound, [], "") else Framed(r)
  }

  /** One reply per request, written or under way, and what the connection's reply holds between two. */
  ghost predicate WireInvariant(h: Handlers, c: Conn) {
    |c.sent| + c.pendingWrites <= |c.asked| &&
    (forall i :: 0 <= i < |c.sent| ==> AnswersTo(h, c.asked, i, c.sent[i])) &&
    (c.pendingWrites == 1 ==> |c.asked| == |c.sent| + 1 && AnswersTo(h, c.asked, |c.sent|, c.reply)) &&
    (c.pendingReads == 1 ==>
       |c.asked| == |c.sent| &&
       if c.sent == [] then c.reply.headers == [] && c.reply.content == "" else Framed(c.reply)) &&
    Announced(c.reply)
  }

  lemma {:induction false} NextKeepsWire(h: Handlers, c: Conn, e: Event)
    requires Invariant(c) && Enabled(c, e) && Sizes(h, c, e) && WireInvariant(h, c)
    ensures WireInvariant(h, Next(h, c, e))
  {
    hide Next, Tracks, Sizes, WireInvariant, Framed, Bare;
    NextOnWire(h, c, e);
    var n := Next(h, c, e);
    NextKeeps(h, c, e);
    if n.pendingWrites > 0 {
      RepliesAnnounced(h, c, e);
      WireAfterRequest(h, c, n);
    } else {
      WireAfterOther(h, c, n, e.WriteDone?);
    }
  }

  lemma {:induction false} WireAfterRequest(h: Handlers, c: Conn, n: Conn)
    requires WireInvariant(h, c) && c.pendingReads == 1 && n.pendingReads == 0 && n.pendingWrites == 1
    requires n.sent == c.sent && |n.asked| == |c.asked| + 1 && n.asked[..|c.asked|] == c.asked
    requires var q := n.asked[|c.asked|];
             (Framed(n.reply) <==> !Bare(h, q) || Framed(c.reply)) && (n.reply.status == NotFound <==> Bare(h, q))
             && (Bare(h, q) ==> n.reply == c.reply.(status := NotFound))
    ensures WireInvariant(h, n)
  {
    hide Framed, Bare;
    forall i | 0 <= i < |c.sent| ensures AnswersTo(h, n.asked, i, n.sent[i]) {
      assert AnswersTo(h, c.asked, i, c.sent[i]) && n.asked[i] == c.asked[i] && n.asked[0] == c.asked[0];
    }
  }

  lemma {:induction false} WireAfterOther(h: Handlers, c: Conn, n: Conn, written: bool)
    requires WireInvariant(h, c) && n.pendingWrites == 0 && n.reply == c.reply && n.asked == c.asked
    requires n.sent == if written then c.sent + [c.reply] else c.sent
    requires written ==> c.pendingWrites == 1 && (n.pendingReads == 1 ==> c.reply.status == Ok)
    requires !written && n.pendingReads == 1 ==> c.pendingReads == 1
    ensures WireInvariant(h, n)
  {
    hide Framed, Bare;
  }

  /** Over every run: each written reply carries the length of its content, unless it is the first one
      and answers a request that decodes to an unregistered path and command. */
  lemma {:induction false} RunAnnounces(h: Handlers, s: Status, es: seq<Event>)
    requires forall key, text :: key in h ==> |h[key](text)| < SIZE_MODULUS
    requires BytesRead(es) < SIZE_MODULUS && RunEvents(h, Opened(ReplyValue(s, [], "")), es).Some?
    ensures var c := RunEvents(h, Opened(ReplyValue(s, [], "")), es).value;
            |c.sent| <= |c.asked| && Announced(c.reply)
            && forall i :: 0 <= i < |c.sent| ==>
                 (Framed(c.sent[i]) <==> !(i == 0 && Bare(h, c.asked[i])))
                 && (c.sent[i].status == NotFound <==> Bare(h, c.asked[i]))
  {
    hide Framed, RunEvents, Opened, Bare, BytesRead;
    RunKeepsWire(h, s, es);
    EmptyIsNotFramed(NotFound);
  }

  lemma {:induction false} RunKeepsWire(h: Handlers, s: Status, es: seq<Event>)
    requires forall key, text :: key in h ==> |h[key](text)| < SIZE_MODULUS
    requires BytesRead(es) < SIZE_MODULUS && RunEvents(h, Opened(ReplyValue(s, [], "")), es).Some?
    ensures var c := RunEvents(h, Opened(ReplyValue(s, [], "")), es).value;
            WireInvariant(h, c) && |c.fields.data| <= BytesRead(es)
  {
    hide Framed, Next, Handle, Tracks;
    if es != [] {
      hide WireInvariant;
      var n := |es| - 1;
      RunKeepsWire(h, s, es[..n]);
      var c := RunEvents(h, Opened(ReplyValue(s, [], "")), es[..n]).value;
      NextOnWire(h, c, es[n]);
      NextKeepsWire(h, c, es[n]);
    }
  }

  /** What one event does to the wire and to the recorded bytes. */
  lemma {:induction false} NextOnWire(h: Handlers, c: Conn, e: Event)
    requires Invariant(c) && Enabled(c, e)
    ensures var n := Next(h, c, e);
            n.sent == (if e.WriteDone? then c.sent + [c.reply] else c.sent)
            && (n.pendingWrites == 0 ==> n.asked == c.asked && n.reply == c.reply)
            && (n.pendingReads == 1 ==> e.WriteDone? || c.pendingReads == 1)
            && (!e.ReadDone? ==> n.reply == c.reply) && (e.ReadDone? ==> c.pendingReads == 1)
            && (e.WriteDone? ==> c.pendingWrites == 1 && (n.pendingReads == 1 ==> c.reply.status == Ok))
            && (n.pendingReads == 1 && e.ReadDone? ==> n.reply == c.reply)
            && (n.pendingWrites == 1 ==> e.ReadDone?) && (n.stops == 0 ==> n.pendingReads + n.pendingWrites == 1)
            && c.stops == 0
            && |n.fields.data| <= |c.fields.data| + (if e.ReadDone? then |e.r.chunk| else 0)
  {
    hide Handle, ParseRead, Block, StockReplyValue;
    if e.ReadDone? {
      ParseKeepsData(c.stage, c.fields, e.r);
    }
  }

  // ---- whole conversations

  lemma {:induction false} RunAppend(h: Handlers, c: Conn, a: seq<Event>, b: seq<Event>)
    requires Invariant(c)
    ensures RunEvents(h, c, a + b)
         == var m := RunEvents(h, c, a); if m.None? then None else RunEvents(h, m.value, b)
    decreases |b|
  {
    hide Next, Enabled;
    if b == [] {
      assert a + b == a;
    } else {
      var n := |b| - 1;
      assert (a + b)[..|a + b| - 1] == a + b[..n];
      RunAppend(h, c, a, b[..n]);
    }
  }

  function ReadEvents(feed: seq<Read>): (es: seq<Event>)
    ensures |es| == |feed|
  {
    seq(|feed|, i requires 0 <= i < |feed| => ReadDone(feed[i]))
  }

  /** The connection waits for the first bytes of a request. */
  predicate Waiting(c: Conn) {
    c.pendingReads == 1 && c.pendingWrites == 0 && c.stops == 0 && c.stage == Fresh && c.fields == RESET
  }

  /** As long as the parser asks for more, only the parser and the request change. */
  lemma {:induction false} ReadsOnly(h: Handlers, c: Conn, feed: seq<Read>)
    requires Waiting(c) && Invariant(c) && (feed != [] ==> Clear(feed[0])) && Run(feed).last.verdict == NeedMore
    ensures RunEvents(h, c, ReadEvents(feed))
         == Some(c.(stage := Run(feed).last.stage, fields := Run(feed).last.fields))
  {
    hide ParseRead, Clear;
    if feed != [] {
      var n := |feed| - 1;
      assert ReadEvents(feed)[..n] == ReadEvents(feed[..n]);
      ReadsOnly(h, c, feed[..n]);
    }
  }

  /** The read that completes or refuses the request. */
  lemma {:induction false} LastRead(h: Handlers, c: Conn, feed: seq<Read>)
    requires Waiting(c) && Invariant(c) && feed != [] && Clear(feed[0])
    requires Run(feed).calls == |feed| && Run(feed).last.verdict != NeedMore
    ensures Run(feed[..|feed| - 1]).last.verdict == NeedMore
    ensures var before := Run(feed[..|feed| - 1]).last;
            var c' := c.(stage := before.stage, fields := before.fields);
            Invariant(c') && RunEvents(h, c, ReadEvents(feed)) == Some(Next(h, c', ReadDone(feed[|feed| - 1])))
            && Run(feed).last == ParseRead(before.stage, before.fields, feed[|feed| - 1])
  {
    hide ParseRead, Next, Clear;
    var n := |feed| - 1;
    assert ReadEvents(feed)[..n] == ReadEvents(feed[..n]);
    ReadsOnly(h, c, feed[..n]);
  }

  /** One request as its client sends it, and how the network splits it. */
  datatype Exchange = Exchange(message: string, feed: seq<Read>)

  predicate Resolves(h: Handlers, f: Fields) {
    Decode(f.uri).Some? && FindKey(h, Decode(f.uri).value, f.cmd).Some?
  }

  /** A complete request, split into non-empty chunks. */
  predicate Whole(x: Exchange) {
    Complete(x.message) && Stream(x.feed) == x.message && x.feed != [] && Clear(x.feed[0]) &&
    forall i :: 0 <= i < |x.feed| ==> x.feed[i].chunk != ""
  }

  /** A complete request for a registered function. */
  predicate WellSent(h: Handlers, x: Exchange) {
    Whole(x) && Resolves(h, RequestOf(x))
  }

  function RequestOf(x: Exchange): (g: Fields)
    requires Complete(x.message)
  {
    Received("", x.message)
  }

  /** The call that the request asks for. */
  function CallOf(h: Handlers, f: Fields): (call: Call)
    requires Resolves(h, f)
  {
    Call(FindKey(h, Decode(f.uri).value, f.cmd).value, f.content)
  }

  function AnswerOf(h: Handlers, f: Fields): (answer: ReplyValue)
    requires Resolves(h, f)
  {
    var key := CallOf(h, f).key;
    OkReply(if key == "echo" || key == "/echo" then f.data else h[key](f.content))
  }

  lemma {:induction false} HandleResolves(h: Handlers, f: Fields, reply: ReplyValue)
    requires Resolves(h, f)
    ensures Handle(h, f, reply) == Handled(AnswerOf(h, f), [CallOf(h, f)])
  {
    hide Decode, OkReply;
  }

  /** What is left after one exchange. */
  function AfterExchange(h: Handlers, c: Conn, f: Fields): (after: Conn) {
    var handled, isLong := Handle(h, f, c.reply), c.isLong || KeepAlive(f.headers);
    var stays := isLong && handled.reply.status == Ok;
    c.(isLong := isLong, reply := handled.reply, wire := handled.reply, asked := c.asked + [Some(f)],
       calls := c.calls + handled.calls, sent := c.sent + [handled.reply],
       pendingReads := if stays then 1 else 0, stops := if stays then 0 else 1)
  }

  /** One exchange, for every complete request: it is handled once, the answer is written once, and the
      connection waits for the next request if that was a success and it is kept alive; otherwise it is
      stopped. */
  lemma {:induction false} ExchangeRun(h: Handlers, c: Conn, x: Exchange)
    requires Waiting(c) && Invariant(c) && Whole(x)
    ensures RunEvents(h, c, ReadEvents(x.feed) + [WriteDone]) == Some(AfterExchange(h, c, RequestOf(x)))
  {
    hide Handle, ParseRead, Run, Complete, Received, KeepAlive, Tracks, Decimal, Stream, Clear, StockContent;
    var f, n := RequestOf(x), |x.feed| - 1;
    RunOnMessage(x.message, x.feed);
    LastRead(h, c, x.feed);
    var before := Run(x.feed[..n]).last;
    var c' := c.(stage := before.stage, fields := before.fields);
    var writing := Next(h, c', ReadDone(x.feed[n]));
    NextKeeps(h, c', ReadDone(x.feed[n]));
    RunAppend(h, c, ReadEvents(x.feed), [WriteDone]);
    OneEvent(h, writing, WriteDone);
  }

  /** Which function one exchange calls, and what it answers. */
  lemma {:induction false} DispatchRun(h: Handlers, c: Conn, x: Exchange, path: string)
    requires Waiting(c) && Invariant(c) && Whole(x) && Decode(RequestOf(x).uri) == Some(path)
    ensures var r, f := RunEvents(h, c, ReadEvents(x.feed) + [WriteDone]), RequestOf(x);
            r.Some? &&
            (path in h ==>
               r.value.calls == c.calls + [Call(path, f.content)] && r.value.sent == c.sent + [AnswerTo(h, path, f)])
            && (path !in h && f.cmd != "" && f.cmd in h ==>
                  r.value.calls == c.calls + [Call(f.cmd, f.content)]
                  && r.value.sent == c.sent + [AnswerTo(h, f.cmd, f)])
            && (path !in h && (f.cmd == "" || f.cmd !in h) ==>
                  r.value.calls == c.calls
                  && r.value.sent == c.sent + [ReplyValue(NotFound, c.reply.headers, c.reply.content)])
  {
    hide RequestOf, KeepAlive, RunEvents, ReadEvents, Decode, Complete, Handle, AnswerTo, Stream, Clear;
    ExchangeRun(h, c, x);
    HandleDispatches(h, RequestOf(x), c.reply, path);
  }

  /** A request for a registered function: the function is called once, with the body. */
  lemma {:induction false} RegisteredRun(h: Handlers, c: Conn, x: Exchange)
    requires Waiting(c) && Invariant(c) && WellSent(h, x)
    ensures var f, answer := RequestOf(x), AnswerOf(h, RequestOf(x));
            var stays := c.isLong || KeepAlive(f.headers);
            RunEvents(h, c, ReadEvents(x.feed) + [WriteDone])
            == Some(c.(isLong := stays, reply := answer, wire := answer, asked := c.asked + [Some(f)],
                       calls := c.calls + [CallOf(h, f)], sent := c.sent + [answer],
                       pendingReads := if stays then 1 else 0, stops := if stays then 0 else 1))
  {
    hide Resolves, CallOf, KeepAlive, Invariant, RunEvents, ReadEvents, Decode, Handle, Complete, Received, Decimal;
    ExchangeRun(h, c, x);
    HandleResolves(h, RequestOf(x), c.reply);
  }

  lemma {:induction false} OneEvent(h: Handlers, c: Conn, e: Event)
    requires Invariant(c) && Enabled(c, e)
    ensures RunEvents(h, c, [e]) == Some(Next(h, c, e))
  {
    hide Next;
    assert [e][..0] == [];
  }

  lemma {:induction false} EmptyRun(h: Handlers, reply: ReplyValue)
    ensures RunEvents(h, Opened(reply), []) == Some(Opened(reply))
  {
  }

  function AllEvents(xs: seq<Exchange>): (es: seq<Event>) {
    if xs == [] then [] else AllEvents(xs[..|xs| - 1]) + (ReadEvents(xs[|xs| - 1].feed) + [WriteDone])
  }

  ghost predicate AllWellSent(h: Handlers, xs: seq<Exchange>) {
    forall i :: 0 <= i < |xs| ==> WellSent(h, xs[i])
  }

  /** The calls and the answers that the requests ask for, in order. */
  function CallsOf(h: Handlers, xs: seq<Exchange>): (calls: seq<Call>)
    requires AllWellSent(h, xs)
    ensures |calls| == |xs|
  {
    if xs == [] then [] else CallsOf(h, xs[..|xs| - 1]) + [CallOf(h, RequestOf(xs[|xs| - 1]))]
  }

  function AnswersOf(h: Handlers, xs: seq<Exchange>): (answers: seq<ReplyValue>)
    requires AllWellSent(h, xs)
    ensures |answers| == |xs|
  {
    if xs == [] then [] else AnswersOf(h, xs[..|xs| - 1]) + [AnswerOf(h, RequestOf(xs[|xs| - 1]))]
  }

  /** A kept-alive conversation: under every chunking the functions are called with exactly the
      bodies that were sent, in order, each request is answered exactly once, and the connection
      ends up waiting for the next one. */
  lemma {:induction false} KeepAliveRun(h: Handlers, reply: ReplyValue, xs: seq<Exchange>)
    requires AllWellSent(h, xs) && (xs != [] ==> KeepAlive(RequestOf(xs[0]).headers))
    ensures var r := RunEvents(h, Opened(reply), AllEvents(xs));
            r.Some? && Waiting(r.value) && r.value.isLong == (xs != [])
            && r.value.reply == (if xs == [] then reply else AnswersOf(h, xs)[|xs| - 1])
            && r.value.calls == CallsOf(h, xs) && r.value.sent == AnswersOf(h, xs)
  {
    hide WellSent, RequestOf, CallOf, AnswerOf, KeepAlive, Invariant, RunEvents, ReadEvents, Decode;
    EmptyRun(h, reply);
    if xs != [] {
      var n := |xs| - 1;
      KeepAliveRun(h, reply, xs[..n]);
      var c := RunEvents(h, Opened(reply), AllEvents(xs[..n])).value;
      RegisteredRun(h, c, xs[n]);
      RunAppend(h, Opened(reply), AllEvents(xs[..n]), ReadEvents(xs[n].feed) + [WriteDone]);
    }
  }

  /** An unregistered request ends a kept-alive conversation with a 404 that repeats the headers and the
      content of the answer before it. */
  lemma {:induction false} NotFoundRepeats(h: Handlers, reply: ReplyValue, xs: seq<Exchange>, x: Exchange)
    requires AllWellSent(h, xs) && xs != [] && KeepAlive(RequestOf(xs[0]).headers)
    requires Whole(x) && Unregistered(h, RequestOf(x))
    ensures var r := RunEvents(h, Opened(reply), AllEvents(xs) + (ReadEvents(x.feed) + [WriteDone]));
            var answers := AnswersOf(h, xs);
            r.Some? && r.value.stops == 1 && r.value.calls == CallsOf(h, xs)
            && r.value.sent == answers + [answers[|xs| - 1].(status := NotFound)]
  {
    hide RequestOf, KeepAlive, Invariant, RunEvents, ReadEvents, Decode, AllWellSent;
    KeepAliveRun(h, reply, xs);
    var c := RunEvents(h, Opened(reply), AllEvents(xs)).value;
    hide AllEvents, CallsOf, AnswersOf, Whole;
    ExchangeRun(h, c, x);
    RunAppend(h, Opened(reply), AllEvents(xs), ReadEvents(x.feed) + [WriteDone]);
  }

  /** On a new connection it is answered with a 404 that has no headers at all, so no length. */
  lemma {:induction false} NotFoundBare(h: Handlers, s: Status, x: Exchange)
    requires Whole(x) && Unregistered(h, RequestOf(x))
    ensures var r := RunEvents(h, Opened(ReplyValue(s, [], "")), ReadEvents(x.feed) + [WriteDone]);
            r.Some? && r.value.sent == [ReplyValue(NotFound, [], "")] && !Framed(r.value.sent[0])
            && r.value.calls == [] && r.value.stops == 1
  {
    hide RequestOf, KeepAlive, RunEvents, ReadEvents, Decode, Whole, Framed;
    ExchangeRun(h, Opened(ReplyValue(s, [], "")), x);
    EmptyIsNotFramed(NotFound);
  }

  lemma {:induction false} HeadNotEmpty(t: Target, hs: seq<Header>)
    ensures HeadText(t, hs) != ""
  {
  }

  /** Every rendered request is one that a client can send, in one piece for instance. */
  lemma {:induction false} RenderedIsWhole(t: Target, hs: seq<Header>, body: string)
    requires t.Valid() && AllCanonical(hs) && Declares(hs, |body|)
    ensures var text := HeadText(t, hs) + body;
            var x := Exchange(text, [Read(text, "")]);
            Whole(x) && RequestOf(x) == Rendered(t, hs, body)
  {
    hide StrStr, Complete, Received, HeadText, Declares, Rendered, AllCanonical;
    RenderedIsComplete(t, hs, body);
    HeadNotEmpty(t, hs);
    var text := HeadText(t, hs) + body;
    var feed := [Read(text, "")];
    assert feed[..|feed| - 1] == [];
    assert Stream(feed) == text && Clear(feed[0]);
  }

  /** There is an unregistered request: POST /x without a body, when nothing is registered. */
  lemma {:induction false} NotFoundBareExample() returns (x: Exchange)
    ensures Whole(x) && Unregistered(map[], RequestOf(x))
    ensures x.message == HeadText(Target("x", "HTTP/1.1"), [Header("Content-Length", Decimal(0))]) + ""
  {
    hide StrStr, IsPlain, TrimUri, Declares, Whole, HeadText, Decimal;
    var t, hs := Target("x", "HTTP/1.1"), [Header(CONTENT_LENGTH, Decimal(0))];
    var text := HeadText(t, hs) + "";
    x := Exchange(text, [Read(text, "")]);
    ExampleTarget();
    ExampleHeaders();
    RenderedIsWhole(t, hs, "");
    AddHeadersOne(RESET, hs[0]);
  }

  lemma {:induction false} AddHeadersOne(f: Fields, h: Header)
    ensures AddHeaders(f, [h]) == AddHeader(f, h)
  {
    assert [h][1..] == [];
  }

  lemma {:induction false} ExampleTarget()
    ensures Target("x", "HTTP/1.1").Valid() && TrimUri("x") == "x"
  {
    hide TrimUri;
    TrimUriKeeps("x");
  }

  lemma {:induction false} ExampleHeaders()
    ensures var hs := [Header(CONTENT_LENGTH, Decimal(0))]; AllCanonical(hs) && Declares(hs, 0)
  {
    hide Declares, Decimal, IsCanonical;
    DecimalDeclares([], 0, []);
    assert [] + [Header(CONTENT_LENGTH, Decimal(0))] + [] == [Header(CONTENT_LENGTH, Decimal(0))];
    DecimalReadsBack(0);
    LengthHeader(Decimal(0));
  }

  /** After these reads the client has got one 400, nothing was called, and the connection is stopped. */
  ghost predicate BadRequestAfter(h: Handlers, c: Conn, feed: seq<Read>)
    requires Invariant(c)
  {
    var r := RunEvents(h, c, ReadEvents(feed) + [WriteDone]);
    r.Some? && r.value.calls == c.calls && r.value.sent == c.sent + [StockReplyValue(BadRequest)] && r.value.stops == 1
  }

  /** That is what happens to a refused header block, under every chunking. */
  lemma {:induction false} RejectedRun(h: Handlers, c: Conn, head: string, feed: seq<Read>)
    requires Waiting(c) && Invariant(c) && RefusedBlock(head) && Brings(feed, head)
    ensures BadRequestAfter(h, c, feed)
  {
    hide Handle, ParseRead, Run, Tracks, Decimal, Stream, Clear, StockContent, EndMarker, Block, RefusedBlock;
    var n := |feed| - 1;
    RejectedAtCompletion(head, feed);
    LastRead(h, c, feed);
    var before := Run(feed[..n]).last;
    var c' := c.(stage := before.stage, fields := before.fields);
    NextKeeps(h, c', ReadDone(feed[n]));
    RunAppend(h, c, ReadEvents(feed), [WriteDone]);
    OneEvent(h, Next(h, c', ReadDone(feed[n])), WriteDone);
  }

  /** A block that does not begin with "POST ". */
  lemma {:induction false} NotPostRun(h: Handlers, c: Conn, head: string, feed: seq<Read>)
    requires Waiting(c) && Invariant(c) && Brings(feed, head)
    requires |head| >= 4 && EndMarker(head) == Some(|head| - 4) && !(POST <= head)
    ensures BadRequestAfter(h, c, feed)
  {
    hide BadRequestAfter, Brings, RefusedBlock;
    NotPostRefused(head);
    RejectedRun(h, c, head, feed);
  }

  /** A request line without a second space. */
  lemma {:induction false} NoTargetRun(h: Handlers, c: Conn, blanks: string, rest: string, more: string,
                                       feed: seq<Read>)
    requires AllBlank(blanks) && IsPlain(rest) && ' ' !in rest
    requires var head := POST + blanks + rest + CRLF + more;
             Waiting(c) && Invariant(c) && Brings(feed, head) && EndMarker(head) == Some(|head| - 4)
    ensures BadRequestAfter(h, c, feed)
  {
    hide BadRequestAfter, Brings, RefusedBlock;
    var head := POST + blanks + rest + CRLF + more;
    NoTargetRefused(head, blanks, rest, more);
    RejectedRun(h, c, head, feed);
  }

  /** The target "/" alone. */
  lemma {:induction false} RootRun(h: Handlers, c: Conn, blanks: string, version: string, more: string,
                                   feed: seq<Read>)
    requires AllBlank(blanks) && IsPlain(version) && ' ' !in version
    requires var head := POST + blanks + ("/ " + version) + CRLF + more;
             Waiting(c) && Invariant(c) && Brings(feed, head) && EndMarker(head) == Some(|head| - 4)
    ensures BadRequestAfter(h, c, feed)
  {
    hide BadRequestAfter, Brings, RefusedBlock;
    var head := POST + blanks + ("/ " + version) + CRLF + more;
    RootRefused(head, blanks, version, more);
    RejectedRun(h, c, head, feed);
  }

  /** A rendered request whose headers declare no length, or one that does not cast to a size. */
  lemma {:induction false} NoLengthRun(h: Handlers, c: Conn, t: Target, hs: seq<Header>, feed: seq<Read>)
    requires t.Valid() && AllCanonical(hs) && !(HasLength(hs) && LengthsCast(hs))
    requires Waiting(c) && Invariant(c) && Brings(feed, HeadText(t, hs))
    ensures BadRequestAfter(h, c, feed)
  {
    hide BadRequestAfter, Brings, HasLength, LengthsCast, AllCanonical, HeadText;
    RenderedMarker(t, hs);
    RenderedBlockExactly(t, hs);
    RejectedRun(h, c, HeadText(t, hs), feed);
  }

  /** A first read whose end marker is completed by stale bytes gets the same treatment. */
  lemma {:induction false} StraddleRun(h: Handlers, c: Conn, r: Read)
    requires Waiting(c) && Invariant(c) && !Clear(r)
    ensures var after := RunEvents(h, c, [ReadDone(r), WriteDone]);
            after.Some? && after.value.calls == c.calls && after.value.sent == c.sent + [StockReplyValue(BadRequest)]
            && after.value.stops == 1
  {
    hide Handle, ParseRead, Tracks, Decimal, Clear, StockContent;
    StraddleRejects(r);
    NextKeeps(h, c, ReadDone(r));
    OneEvent(h, c, ReadDone(r));
    RunAppend(h, c, [ReadDone(r)], [WriteDone]);
    assert [ReadDone(r)] + [WriteDone] == [ReadDone(r), WriteDone];
    OneEvent(h, Next(h, c, ReadDone(r)), WriteDone);
  }

  // ---- the class

  class Connection {
    const request: Request
    const reply: Reply
    const handler: Handler
    var parser: Parser
    var isLong: bool
    // asynchronous operations under way, requests to the manager, and the history
    ghost var pendingReads: nat
    ghost var pendingWrites: nat
    ghost var stops: nat
    ghost var wire: ReplyValue
    ghost var asked: seq<Option<Fields>>
    ghost var calls: seq<Call>
    ghost var sent: seq<ReplyValue>

    ghost function State(): (after: Conn)
      reads this, request, parser, reply
    {
      Conn(isLong, parser.stage, request.Value(), reply.Value(), pendingReads, pendingWrites, stops, wire,
           asked, calls, sent)
    }

    ghost predicate Valid()
      reads this, request, parser, reply
    {
      parser.Valid() && Invariant(State())
    }

    constructor (handler: Handler, anyStatus: Status)
      ensures this.handler == handler && parser.Valid() && fresh(request) && fresh(parser) && fresh(reply)
      ensures State() == Opened(ReplyValue(anyStatus, [], "")).(pendingReads := 0)
    {
      this.handler := handler;
      isLong := false;
      parser := new Parser();
      request := new Request();
      reply := new Reply(anyStatus);
      pendingReads, pendingWrites, stops, asked, calls, sent := 0, 0, 0, [], [], [];
      wire := ReplyValue(anyStatus, [], "");
    }

    /** Start: a socket without a remote end is reported to the caller, which stops it. */
    method Start(hasRemoteEndpoint: bool) returns (ok: bool)
      requires parser.Valid() && Invariant(State().(pendingReads := 1)) && pendingReads == 0
      modifies this
      ensures ok == hasRemoteEndpoint && State() == old(State()).(pendingReads := if ok then 1 else 0)
      ensures parser == old(parser) && (ok ==> Valid())
    {
      if !hasRemoteEndpoint {
        return false;
      }
      AsyncRead();
      return true;
    }

    method AsyncRead()
      modifies `pendingReads
      ensures pendingReads == old(pendingReads) + 1
    {
      pendingReads := pendingReads + 1;
    }

    /** Reply: start writing the buffers of the reply. */
    method SendReply()
      modifies `pendingWrites, `wire
      ensures pendingWrites == old(pendingWrites) + 1 && wire == reply.Value()
    {
      var buffers := reply.ToBuffers();
      pendingWrites, wire := pendingWrites + 1, reply.Value();
    }

    method RequestKeepAlive() returns (keep: bool)
      ensures keep == KeepAlive(request.headers)
    {
      var i := 0;
      while i < |request.headers|
        invariant i <= |request.headers| && forall k :: 0 <= k < i ==> !IsKeepAlive(request.headers[k])
      {
        var name := LowerCase(request.headers[i].name);
        var value := LowerCase(request.headers[i].value);
        if name == "connection" && value == "keep-alive" {
          assert IsKeepAlive(request.headers[i]);
          return true;
        }
        i := i + 1;
      }
      return false;
    }

    method CallHandler()
      modifies `asked, `calls, reply
      ensures var c := old(State());
              var handled := Handle(handler.handlers, c.fields, c.reply);
              State() == c.(reply := handled.reply, asked := c.asked + [Some(c.fields)],
                            calls := c.calls + handled.calls)
    {
      hide Handle;
      asked := asked + [Some(request.Value())];
      ghost var made := handler.HandleRequest(request, reply);
      calls := calls + made;
    }

    /** The branch of HandleRead for a complete request. */
    method AnswerRequest()
      modifies this, request, reply
      ensures fresh(parser) && parser.Valid()
      ensures var c, f := old(State()), old(request.Value());
              var handled := Handle(handler.handlers, f, c.reply);
              State() == StartWrite(c.(stage := Fresh, isLong := c.isLong || KeepAlive(f.headers), fields := RESET,
                                       reply := handled.reply, asked := c.asked + [Some(f)],
                                       calls := c.calls + handled.calls))
    {
      hide Handle, KeepAlive;
      parser := new Parser();
      if !isLong {
        isLong := RequestKeepAlive();
      }
      CallHandler();
      SendReply();
      request.Reset();
    }

    /** The branch of HandleRead for a request that is refused. */
    method RefuseRequest()
      modifies this, request, reply
      ensures parser == old(parser)
      ensures var c := old(State());
              State() == StartWrite(c.(fields := RESET, reply := StockReplyValue(BadRequest),
                                       asked := c.asked + [None]))
    {
      hide StockReplyValue;
      var bad := new Reply.Stock(BadRequest);
      reply.Assign(bad);
      asked := asked + [None];
      SendReply();
      request.Reset();
    }

    method HandleRead(error: bool, r: Read)
      requires Valid() && pendingReads > 0
      modifies this, request, parser, reply
      ensures Valid() && (parser == old(parser) || fresh(parser))
      ensures State() == Next(handler.handlers, old(State()), if error then ReadFailed else ReadDone(r))
    {
      hide Invariant, Handle, ParseStep, StockReplyValue, KeepAlive;
      ghost var before, event := State(), if error then ReadFailed else ReadDone(r);
      NextKeeps(handler.handlers, before, event);
      BodyIsOpen(before);
      pendingReads := pendingReads - 1;
      if error {
        stops := stops + 1;
        return;
      }
      var result := parser.Parse(request, r.chunk + r.stale, |r.chunk|);
      if result == Accept {
        AnswerRequest();
      } else if result == Reject {
        RefuseRequest();
      } else {
        AsyncRead();
      }
    }

    method HandleWrite(error: bool)
      requires Valid() && pendingWrites > 0
      modifies this
      ensures Valid() && parser == old(parser)
      ensures State() == Next(handler.handlers, old(State()), if error then WriteFailed else WriteDone)
    {
      hide Invariant, Handle;
      NextKeeps(handler.handlers, State(), if error then WriteFailed else WriteDone);
      pendingWrites := pendingWrites - 1;
      if error {
        stops := stops + 1;
        return;
      }
      sent := sent + [wire];
      if reply.status != Ok {
        stops := stops + 1;
        return;
      }
      if !isLong {
        stops := stops + 1;
      } else {
        AsyncRead();
      }
    }
  }

  /** While reading a body, some of it is still missing. */
  lemma {:induction false} BodyIsOpen(c: Conn)
    requires Invariant(c) && c.pendingReads > 0
    ensures c.stage.InBody? ==> |c.fields.content| < c.fields.contentLength
  {
  }
}
