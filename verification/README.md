# Verified model of the futures cell proxy core

A Dafny 4.11 model of three parts of the futures cell proxy, and proofs about it.

1. **MD5** (`Words`, `WordVectors`, `Rfc1321`, `Md5Transform`, `Md5`, `Md5Suite`). `Rfc1321` defines
   the digest on values, as the RFC does: padding, a table of operations, a fold over blocks.
   `WordVectors` gives the bitwise operators a second meaning, on bit vectors, and `Md5Suite` works out
   an entry of the RFC's test suite. The class `Md5.MD5` is the streaming object of common/md5.cc with
   its state, counter and buffer arrays. The main results:
   the unrolled compression is the table-driven one; any list of updates leaves the object standing
   for the concatenation; the digest is that of RFC 1321; `update` returns exactly for the lengths
   that `LoopEnds` gives; and finalising keeps the message exactly under the condition of
   `KeptExactly`. When that condition fails, a second `digest()` or `toString()` on the same object
   is the digest of other bytes, which `Kept` names.
2. **HTTP** (`CText`, `HttpRequest`, `RequestParser`, `ParserStream`, `RequestText`, `CharParser`,
   `UrlCoding`, `HttpReply`, `Connection`). `RequestParser.Parser` is the coroutine `prase_http`
   with its resumption point written out as a `Stage`. `ParserStream` proves that its answers depend
   only on the bytes received, for every chunking. `CharParser` is the older `consume`, proved to
   agree with it. `Connection` drives the parser through read, handle and write; its run theorems
   cover whole conversations. A read delivers a chunk and the older bytes behind it in the buffer,
   because the first `strstr` of a request can see those; `Clear` says that no end marker straddles
   the end of the chunk, and `StaleBytesMatter` shows that this is exactly when they do no harm.
   A 404 changes only the status of the reply before it: `RunAnnounces` gives the exact condition
   under which a written reply has no length, and `NotFoundBare` the requests that meet it.
3. **Shared resources** (`ConnectionManager`, `ClientPool`). Critical sections are atomic steps of a
   state machine (the two halves of `ConnectionManager::Start` are separate steps under the lock,
   and the passes of an RPC retry loop are steps outside it), and the invariants hold over every
   interleaving. Classes with the source's fields and loops are proved against those steps: each
   method takes the steps of the state machine that it stands for. A retry loop ends, whatever the
   other threads do in between, as it would alone.

How it is laid out: code that works step by step is a class or a method, and its `ensures` ties the
new state to a function on values; the lemmas are about that function and about runs of it. Every
lemma turns automatic induction off, so each proof spells out the induction it rests on.

Modelling assumptions:

- Bytes are `int` values below 256 in MD5 and characters in the HTTP part; `uint32` arithmetic wraps
  explicitly. Characters above 127 stand for the negative values of `char`.
- A NUL ends what `strstr` and the C-string loops see, so headers need not be free of NULs.
- `m_offset` and the line lengths are unbounded; the source keeps them in an `int`, so a header of
  2^31 bytes or more is not covered. Neither are version numbers that overflow an `int` in `consume`.
- `lexical_cast<size_t>` takes a sign and digits and fails on overflow, with a minus sign negating
  modulo 2^64; `std::hex` extraction in `UrlDecode` takes white space, a sign or a single digit as the
  C++ library does.
- The first request of a connection starts out reset; the source leaves `bheader` unset there.
- The registered request functions are pure functions from content to output. A connection completes
  a read or a write, well or badly, only when it has started one.
- Each connection is handed to the manager's Start once.
- A retry flag is a 32-bit number; a negative one makes `retry_time--` overflow, which C++ leaves
  undefined and the model takes as wrapping.

## Model

| member | source | states |
|---|---|---|
| `Words.RotateByShifts` | common/md5.cc:33 | the shifts and the `or` of ROTATE_LEFT are s circular shifts by one place, for every word and every s in 1..31 |
| `Words.RotateBit` | common/md5.cc:33 | a circular shift by s places moves bit k to place k + s modulo 32, for every word, s and k |
| `Words.NotBit` | common/md5.cc:26-29 | complementing a word flips each of its 32 bits |
| `Rfc1321.FBit` | common/md5.cc:26 | F is if x then y else z, for each bit |
| `Rfc1321.GBit` | common/md5.cc:27 | G is if z then x else y, for each bit |
| `Rfc1321.HBit` | common/md5.cc:28 | H is the parity of each three bits |
| `Rfc1321.IBit` | common/md5.cc:29 | I differs from y exactly where x is set or z is not |
| `WordVectors.QuadOperates` | common/md5.cc:26-29 | `&`, `|` and `^` on words are those of 8-bit vectors on each of the four bytes |
| `Md5Transform.MixOperates` | common/md5.cc:26-57 | a macro of round 1, 2, 3 or 4 is operation i of section 3.4 of RFC 1321, registers moved one place round |
| `Md5Transform.RoundOperates` | common/md5.cc:226-296 | sixteen macros in the registers' fixed places are sixteen table-driven operations with word index i, 5i+1, 3i+5, 7i modulo 16 |
| `Md5Transform.Round1` | common/md5.cc:226-242 | the written-out first round, with its constants, is rows 0 to 3 of the table-driven form |
| `Md5Transform.Round2` | common/md5.cc:244-260 | the written-out second round is rows 4 to 7 |
| `Md5Transform.Round3` | common/md5.cc:262-278 | the written-out third round is rows 8 to 11 |
| `Md5Transform.Round4` | common/md5.cc:280-296 | the written-out fourth round is rows 12 to 15 |
| `Md5.Encode` | common/md5.cc:307-315 | the output is the words' bytes, low-order byte first |
| `Md5.Decode` | common/md5.cc:320-326 | the output is the words that each four bytes spell, low-order byte first |
| `Md5.DecodeEncode` | common/md5.cc:307-326 | decoding undoes encoding on every list of words |
| `Md5.EncodeDecode` | common/md5.cc:307-326 | encoding undoes decoding on every byte sequence whose length is a multiple of 4 |
| `Md5.CompressByRounds` | common/md5.cc:220-302 | the four rounds and the last four additions are the compression function of RFC 1321 |
| `Md5.MD5.Transform` | common/md5.cc:220-302 | the state becomes the compression of the old state with the block |
| `Md5Suite.AlphabetDigest` | common/md5.cc:93-217 | the digest of the alphabet is c3fcd3d76192e4007dfb496cca67e13b, as in section A.5 of RFC 1321, worked out through all 64 operations: it pins tables, shifts, word and byte order, padding and initial state |
| `Md5.MD5.constructor` | common/md5.cc:70-72 | a new object stands for the empty message |
| `Md5.MD5.Reset` | common/md5.cc:103-113 | afterwards the object stands for the empty message; buffer and digest keep their bytes |
| `Md5.IndexOfCount` | common/md5.cc:157 | the shifted and masked low count word is the message length modulo 64, however often the counter wrapped |
| `Md5.CountAdds` | common/md5.cc:160-163 | with the carry test and the `>> 29` the two count words hold the new length in bits modulo 2^64 |
| `Md5.MD5.AddBits` | common/md5.cc:160-163 | the count fields go from n bytes to n + length bytes |
| `Md5.LoopEnds` | common/md5.cc:165-173 | the 32-bit test `i + 63 < length` ever fails exactly when length <= 2^32 - 1 - index, so this is when `update` returns |
| `Md5.MD5.TransformBlocks` | common/md5.cc:173-175 | the loop absorbs every complete block from its offset on and stops less than 64 bytes before the end |
| `Md5.MD5.Update` | common/md5.cc:150-184 | streaming invariant: state, counter and buffered tail stand for the old bytes followed by the input, for every length on which the loop ends; the 64 buffer bytes are stated in full |
| `Md5.DigestOfChunks` | common/md5.cc:93-184 | however a message is cut into chunks on which `update` returns, by the bound of LoopEnds, the first digest is the RFC 1321 digest of their concatenation |
| `Md5.PaddedByUpdates` | common/md5.cc:204-209 | pad length in 1..64, message and pad are 56 modulo 64, and message, pad and length bytes are the padding of sections 3.1 and 3.2 of RFC 1321 |
| `Md5.PaddedInjective` | common/md5.cc:200-209 | distinct messages of any length are padded to distinct byte sequences |
| `Md5.MD5.PadAndEncode` | common/md5.cc:200-212 | the two updates and the encoding leave the RFC 1321 digest of the bytes taken in |
| `Md5.MD5.Final` | common/md5.cc:189-217 | digest as above, state and counter as before; the object then stands for the kept bytes |
| `Md5.KeptExactly` | common/md5.cc:204-216 | finalising leaves the object standing for the same bytes exactly when fewer than 56 bytes were buffered or the buffered bytes already were what it writes there |
| `Md5.KeptTwice` | common/md5.cc:204-216 | from the second finalisation on nothing changes any more |
| `Md5.KeptFails` | common/md5.cc:204-216 | 56 times the letter a is a message that does not survive finalisation |
| `Md5.MD5.Finish` | common/md5.cc:93-100 | `digest()` always recomputes, because `final` clears the flag again through `update`; the result is the RFC 1321 digest of the message |
| `Md5.MD5.ToString` | common/md5.cc:344-346 | the hex text of that digest |
| `Md5.BytesToHexString` | common/md5.cc:329-341 | two hex digits per byte, high half first |
| `Md5.HexInjective` | common/md5.cc:329-341 | different byte sequences print differently |
| `Md5.HexReads` | common/md5.cc:329-341 | characters 2k and 2k+1 of the text are the digits of the high and the low half of byte k |
| `Md5.MD5.UpdateFromStart` | common/md5.cc:116-125 | the public overloads forget earlier input: the object stands for the new input alone |
| `Md5.SignThenLog` | src/futures_proxy.cc:337-340 | of two toString() calls in a row the first gives the digest of the text and the second the digest of the kept bytes; they agree when the length is below 56 modulo 64 |
| `CText.DecimalReadsBack` | server_base/request_parser.cpp:242-243 | the decimal text of every size reads back as that size |
| `CText.CastExactly` | server_base/request_parser.cpp:242-243 | a Content-Length casts exactly if it is an optional sign and digits whose value is below 2^64 |
| `CText.CastSigned` | server_base/request_parser.cpp:242-243 | a plus sign changes nothing and a minus sign negates modulo 2^64 |
| `HttpRequest.Request.Reset` | server_base/request.h:53-64 | every field has its reset value |
| `RequestParser.Ncmp` | server_base/request_parser.cpp:437-454 | the loop decides whether the text begins with the pattern |
| `RequestParser.Parser.GetLine` | server_base/request_parser.cpp:344-355 | the next line with its CRLF and the new offset, or -1 with line and offset untouched |
| `RequestParser.Parser.GetHttpUri` | server_base/request_parser.cpp:470-491 | the loops fill in the request as UriLine does on values, rejected lines included |
| `RequestParser.Parser.GetMimeHeader` | server_base/request_parser.cpp:493-535 | the loops fill in the request as MimeLine does on values, User-cmd included |
| `RequestParser.Parser.ReadHeaderLines` | server_base/request_parser.cpp:216-234 | the line loop ends, with the fields, the outcome and the final offset of the recursive ReadLines |
| `RequestParser.Parser.FindContentLength` | server_base/request_parser.cpp:236-253 | it fails exactly when a Content-Length header does not cast to a size; otherwise the last one gives the length |
| `HttpRequest.LastLengthWins` | server_base/request_parser.cpp:236-253 | the search succeeds exactly when every Content-Length header casts; then only the length and `bheader` change, as the last one says, and without one nothing does |
| `HttpRequest.HeadersEqualExactly` | server_base/request_parser.cpp:317-328 | header names are equal exactly when they agree letter by letter in any case |
| `ParserStream.RenderedBlockExactly` | server_base/request_parser.cpp:236-257 | a rendered block is accepted exactly when it has a Content-Length and all of them cast to a size |
| `ParserStream.NotPostRefused` | server_base/request_parser.cpp:216-234 | a block that does not begin with "POST " is refused |
| `ParserStream.NoTargetRefused` | server_base/request_parser.cpp:470-491 | a block whose request line has no second space is refused |
| `ParserStream.RootRefused` | server_base/request_parser.cpp:470-491 | a block that asks for the target "/" alone is refused |
| `RequestParser.Parser.HeaderComplete` | server_base/request_parser.cpp:215-265 | the part of a call behind a complete header, exception for a marker behind the received length included |
| `RequestParser.Parser.ParseHttp` | server_base/request_parser.cpp:187-284 | one resumption of the coroutine equals Step on values, for every stage including a finished one |
| `RequestParser.Parser.Parse` | server_base/request_parser.h:54-70 | raw bytes are kept and an exception becomes a failed parse |
| `ParserStream.LinesStayInHeader` | server_base/request_parser.cpp:216-234 | from every line start the loop gives on the whole text what it gives on the header block alone |
| `ParserStream.LinesReachEnd` | server_base/request_parser.cpp:216-234 | a block that does not begin with a blank line is read exactly to its end unless a line is rejected, by whichever exit |
| `ParserStream.ParseFollowsStream` | server_base/request_parser.cpp:187-284 | one call, at any stage: its answer and the request depend only on the bytes received so far |
| `ParserStream.RunFollowsStream` | server_base/request_parser.cpp:187-284 | a run ends at the first call whose bytes decide the stream, never earlier, with the answer those bytes deserve |
| `ParserStream.BodyFraming` | server_base/request_parser.cpp:258-281 | the content begins with the declared slice of the stream and is longer only when the chunk that completed the header brought the surplus |
| `ParserStream.ChunkIndependence` | server_base/request_parser.cpp:187-284 | every split of a complete request asks for more on all calls but the last and then accepts the very request the whole text gives in one call |
| `ParserStream.RejectedAtCompletion` | server_base/request_parser.cpp:216-257 | a refused header block is refused at the chunk that completes it, for every split and whatever that chunk brings behind it |
| `ParserStream.StaleBytesMatter` | server_base/request_parser.cpp:198-200 | old buffer bytes behind the first chunk change its verdict exactly when an end marker straddles the end of the chunk; otherwise verdict, stage and request are those of the chunk alone |
| `ParserStream.StaleNewlineRejects` | server_base/request_parser.cpp:198-200 | the failing family: any header that arrives without its last byte while a newline is left over is refused instead of waited for |
| `ParserStream.RenderedIsComplete` | server_base/request_parser.cpp:215-265 | every rendered POST request with a declared body is complete and reads back as rendered |
| `ParserStream.DecimalDeclares` | server_base/request_parser.cpp:236-257 | one Content-Length header with the decimal length, in any position, declares the body |
| `RequestText.MimeReadsBack` | server_base/request_parser.cpp:493-535 | a canonical header line reads back as its name and value |
| `RequestText.MimeLineReads` | server_base/request_parser.cpp:493-535 | every line is cut at its first colon and both parts are trimmed |
| `RequestText.MimeLineRefuses` | server_base/request_parser.cpp:493-535 | a line without a colon before its end or first NUL is refused |
| `RequestText.LastCommandWins` | server_base/request_parser.cpp:493-535 | the last User-cmd header sets the command, and without one it stays |
| `RequestText.TokenChars` | server_base/request_parser.cpp:288-315 | the characters allowed in names are the token characters of section 3.2.6 of RFC 7230 |
| `RequestText.UriReadsBack` | server_base/request_parser.cpp:470-491 | a request line reads back as its method and its trimmed uri without the leading slash |
| `RequestText.UriLineReads` | server_base/request_parser.cpp:470-491 | any number of spaces may come before the target; one leading slash is dropped, and there need be none |
| `RequestText.UriLineRefuses` | server_base/request_parser.cpp:470-491 | a request line without a second space, or with the target "/" alone, is refused |
| `RequestText.TrimUriKeeps` | server_base/request_parser.cpp:456-468 | a uri without '?' and '/' is kept |
| `RequestText.TrimUriQuery` | server_base/request_parser.cpp:459-462 | from the question mark on nothing counts, whatever path and query hold |
| `RequestText.TrimUriSegment` | server_base/request_parser.cpp:463-466 | only the first path segment is kept, unless its slash belongs to a scheme marker |
| `RequestText.TrimUriScheme` | server_base/request_parser.cpp:457 | a leading scheme is dropped, in small or capital letters |
| `RequestText.HeadReadsBack` | server_base/request_parser.cpp:216-234 | print and parse: a rendered header block gives its method, uri and headers back in order and the loop stops at its end |
| `RequestText.HeadMarker` | server_base/request_parser.cpp:198-206 | the first end marker of a rendered request is the one that ends its header, whatever the body |
| `CharParser.Parser.Consume` | server_base/request_parser.cpp:28-186 | one character moves the coroutine as ConsumeStep does on values |
| `CharParser.ConsumeRefusesExactly` | server_base/request_parser.cpp:28-186 | at every yield point exactly the listed characters are refused, and then the coroutine has ended |
| `CharParser.ConsumeAccepts` | server_base/request_parser.cpp:28-186 | a canonical request is accepted at its last character with its method, uri, version numbers, headers and body |
| `CharParser.ParsersAgree` | server_base/request_parser.cpp:28-284 | on every canonical request and every chunking both parsers accept and agree on method, headers and content; the uris differ by trimming and one slash |
| `UrlCoding.UrlDecode` | server_base/handler.cc:89-126 | the loop succeeds when Decode does, with the same text |
| `UrlCoding.DecodesExactly` | server_base/handler.cc:89-126 | decoding gives a text exactly when the input is a concatenation of pieces that stand for its characters |
| `UrlCoding.DecodeEncode` | server_base/handler.cc:89-126 | whichever bytes were escaped, in either case, and with '+' for any space, the original text comes back |
| `UrlCoding.EscapeRefused` | server_base/handler.cc:89-126 | a text is refused if its first escape is cut off or begins with a character that is no hexadecimal digit, sign or white space |
| `HttpReply.Reply.ToBuffers` | server_base/reply.cpp:103-118 | the buffers one after the other are status line, headers, blank line and content |
| `HttpReply.Reply.Stock` | server_base/reply.cpp:242-253 | a stock reply has its page and the page's length |
| `HttpReply.Reply.BuildReply` | server_base/handler.cc:67-76 | status, content and both headers are replaced |
| `HttpReply.OkReplyText` | server_base/handler.cc:67-76 | the whole text of a success on the wire |
| `HttpReply.StockReplyText` | server_base/reply.cpp:242-253 | the whole text of a stock reply on the wire |
| `HttpReply.PageShowsStatus` | server_base/reply.cpp:120-240 | the page of an enumerator has the code and reason of its status line, exactly but for 200, which has none, and 204, whose heading lacks "No" |
| `HttpReply.WithContentFramed` | server_base/reply.cpp:242-253 | both kinds of reply carry canonical headers that declare the length of the content |
| `HttpReply.StatusLineInjective` | server_base/reply.cpp:18-92 | two status lines agree exactly when both statuses show the same enumerator: no two enumerators share a line, and every other value shows the line of 500 |
| `HttpReply.ReplyReadsBack` | server_base/reply.cpp:103-118 | a framed reply is read back whole, whatever bytes follow it |
| `HttpReply.RepliesSplitBack` | server_base/reply.cpp:103-118 | the bytes of a list of framed replies determine the list: headers, contents and the statuses that the lines show |
| `Connection.Handler.HandleRequest` | server_base/handler.cc:78-87 | reply and call are those of Handle on values, undecodable paths included |
| `Connection.Handler.ProcessRequest` | server_base/handler.cc:30-65 | path first, then User-cmd, else a 404 that changes only the status; echo answers with the raw request |
| `Connection.HandleDispatches` | server_base/handler.cc:30-65 | a registered path is called whatever the command, else a registered command, else nothing; answers are given in full, the echo and the 404 included |
| `Connection.UndecodableRefused` | server_base/handler.cc:78-87 | a path that does not decode gets the 400 page and no call |
| `Connection.DispatchRun` | server_base/connection.cc:116-209 | the same for one exchange of a connection, under any chunking |
| `Connection.Connection.Start` | server_base/connection.cc:52-66 | one read is under way when the socket has a remote end, none otherwise |
| `Connection.Connection.RequestKeepAlive` | server_base/connection.cc:211-222 | the loop finds a keep-alive header in any case of letters |
| `Connection.Connection.HandleRead` | server_base/connection.cc:116-171 | the whole new state is Next of the old one for every outcome of the read, and the invariant holds |
| `Connection.Connection.HandleWrite` | server_base/connection.cc:173-209 | the same for every outcome of the write |
| `Connection.NextKeeps` | server_base/connection.cc:116-209 | every callback keeps: one operation under way or one stop request, parser waiting for what the request has recorded, pending buffers equal to the reply |
| `Connection.WriteKeepsReply` | server_base/reply.h:54-56 | a corollary of NextKeeps: while a write is under way only its completion can happen and the reply does not change |
| `Connection.ParserNeverReentered` | server_base/connection.cc:116-163 | a corollary of NextKeeps: in every run the parser is not resumed after it answered, and a new parser meets a reset request |
| `Connection.FailureStops` | server_base/connection.cc:164-209 | in every run a failed read or write asks the manager once to stop, leaves nothing under way, allows no further event and changes nothing else |
| `Connection.WriteDoneExactly` | server_base/connection.cc:173-209 | in every run a completed write is the end exactly when the reply was no success or the connection is not kept |
| `Connection.KeptIfAsked` | server_base/connection.cc:125-131 | over every run the connection is kept exactly if an accepted request carried a keep-alive header |
| `Connection.HandleFramedExactly` | server_base/handler.cc:30-87 | the reply declares its length exactly when the request is refused or registered, or the reply before declared one; the status is 404 exactly for unregistered requests |
| `Connection.RepliesAnnounced` | server_base/handler.cc:42-76 | a reply about to be written declares its length exactly when its request is not for an unregistered path or the reply before declared one |
| `Connection.RunAnnounces` | server_base/handler.cc:30-87 | over every run a written reply lacks a length exactly when it is the first one and its request decodes to an unregistered path and command; in every state the reply is empty or declares its length |
| `Connection.NotFoundBare` | server_base/handler.cc:42-45 | on a new connection any complete unregistered request, under any chunking, is answered with one 404 that has no headers, so no length, and the connection is stopped |
| `Connection.NotFoundBareExample` | server_base/handler.cc:42-45 | POST /x without a body is such a request when nothing is registered |
| `Connection.NotFoundRepeats` | server_base/handler.cc:42-45 | after a kept-alive conversation of any length its 404 repeats the headers and the content of the answer before |
| `Connection.ExchangeRun` | server_base/connection.cc:116-209 | any complete request under any chunking: handled once, answered once, then waiting if the answer is a 200 and the connection is kept alive, else stopped |
| `Connection.KeepAliveRun` | server_base/connection.cc:116-221 | kept-alive conversations of any length under any chunking: calls and answers are exactly those of the requests, in order |
| `Connection.RejectedRun` | server_base/connection.cc:141-153 | a refused header block under any chunking, whatever the completing chunk brings behind it: one 400, no call, stopped |
| `Connection.NotPostRun` | server_base/connection.cc:141-153 | one 400, no call and a stop for a block that does not begin with "POST " |
| `Connection.NoTargetRun` | server_base/connection.cc:141-153 | the same for a request line without a second space |
| `Connection.RootRun` | server_base/connection.cc:141-153 | the same for the target "/" alone |
| `Connection.NoLengthRun` | server_base/connection.cc:141-153 | the same for a rendered request without a Content-Length, or with one that does not cast |
| `Connection.StraddleRun` | server_base/request_parser.cpp:198-200 | a first read whose end marker is completed by stale bytes: one 400, no call, stopped |
| `ConnectionManager.ConnectionManager.Start` | server_base/connection_manager.cc:24-31 | both halves of Start under the lock, for any pointer |
| `ConnectionManager.ConnectionManager.Stop` | server_base/connection_manager.cc:33-43 | a member is removed and stopped once, anyone else is left alone |
| `ConnectionManager.ConnectionManager.Erase` | server_base/connection_manager.cc:45-54 | a member is removed without a stop |
| `ConnectionManager.ConnectionManager.StopAll` | server_base/connection_manager.cc:56-59 | every member is stopped once and the set is emptied |
| `ConnectionManager.ConnectionManager.Sweep` | server_base/connection_manager.cc:67-79 | erasing while walking removes and stops exactly the timed-out members |
| `ConnectionManager.NextKeeps` | server_base/connection_manager.cc:24-81 | every locked step keeps each connection in exactly one place and the stops exact |
| `ConnectionManager.Conservation` | server_base/connection_manager.cc:24-81 | over every interleaving inserted = managed + stopped + erased, and nobody is stopped twice |
| `ConnectionManager.StartedIsFound` | server_base/connection_manager.cc:24-43 | a connection whose first read was issued is found by the first Stop that gets the lock |
| `ConnectionManager.StopAllStops` | server_base/connection_manager.cc:56-59 | after StopAll nothing is managed and every inserted, unerased connection was stopped once |
| `ConnectionManager.SweepExactly` | server_base/connection_manager.cc:67-79 | at the end of any run a sweep keeps exactly the members that have not timed out and stops each other one once |
| `ConnectionManager.StopExactly` | server_base/connection_manager.cc:33-43 | Stop takes out and stops that member and touches nobody else |
| `ConnectionManager.EraseExactly` | server_base/connection_manager.cc:45-54 | Erase takes out that member and changes no stop count |
| `ConnectionManager.StopAllExactly` | server_base/connection_manager.cc:56-59 | StopAll takes out everybody and stops each member once |
| `ConnectionManager.StartExactly` | server_base/connection_manager.cc:24-31 | Start makes the connection a member if it succeeds and otherwise stops it, and touches nobody else |
| `ClientPool.TradeInfoWrapper.InitClient` | src/rpc/sp_trade_info_wrapper.cc:27-55 | an open connection is kept, else one attempt decides both fields |
| `ClientPool.TradeInfoWrapper.AddOrder` | src/rpc/sp_trade_info_wrapper.cc:78-98 | the retry loop has the outcome, the calls and the final state of Attempts, for every 32-bit flag |
| `ClientPool.AttemptsExactly` | src/rpc/sp_trade_info_wrapper.cc:57-98 | success exactly when some pass reaches the server and is answered; never more calls than passes; connected after success and not after failure |
| `ClientPool.IssuedExactly` | src/rpc/sp_trade_info_wrapper.cc:57-98 | the calls issued are one for each pass that reaches the server, up to the first that is answered |
| `ClientPool.TradeInfoPool.GetClientPtr` | src/rpc/client_tmplate.h:30-39 | an idle client leaves the set, a new one is made only when there is none: the whole pool takes the step Get |
| `ClientPool.TradeInfoPool.FreeClientPtr` | src/rpc/client_tmplate.h:42-49 | a usable client joins the set, another is dropped: the whole pool takes the step Free or Drop |
| `ClientPool.TradeInfoPool.CallOn` | src/rpc/sp_trade_info_wrapper.cc:78-98 | a whole call on a lent client is the borrower's Try steps, as many as it takes |
| `ClientPool.TradeInfoPool.Trade` | src/futures_proxy.cc:384-396 | the pool takes the steps Get, Try until done, and Free or Drop; the outcome is that of Attempts; the client is in the pool afterwards exactly if the call was answered |
| `ClientPool.NextKeeps` | src/rpc/client_tmplate.h:30-49 | every step of every thread keeps clients in one place, idle ones connected and call counts within bounds |
| `ClientPool.PoolSafety` | src/rpc/client_tmplate.h:30-49 | over every interleaving created = idle + lent + dropped, no client is lent twice, idle ones are connected, no job issued more calls than allowed |
| `ClientPool.JobsRunAsAlone` | src/rpc/sp_trade_info_wrapper.cc:78-98 | over every interleaving, a retry loop that is over has the client state, the answer and the calls of Attempts run alone |
| `ClientPool.TryAllIsAttempts` | src/rpc/sp_trade_info_wrapper.cc:78-98 | Try steps of one thread until it is answered or has used up its passes are Attempts; nothing else changes |
| `ClientPool.TradeChanges` | src/futures_proxy.cc:384-396 | get, call and give back: the client joins the idle ones exactly if the call was answered and is dropped otherwise, and no other client or thread is affected |

## Left out

- Md5.KeptExactly: says which bytes the object stands for after finalising, not whether two different
  messages share a digest; that is a question of MD5 collisions.
- `MD5::update(ifstream&)` and the file constructor: they restart the digest for every 1024-byte buffer.
- `Connection::PushMsg`: it overwrites the reply without looking for a pending write, and nothing calls it.
- Pipelined requests: bytes behind a body go into the content or are dropped, as `BodyFraming` says;
  the run theorems let a client send the next request after the reply.
- Sockets, strands, timers, SSL, logging and monitoring; the clock behind `IsTimeOut` is the set of
  timed-out connections given to a sweep.
- The race between shutting the server down and an accept in flight (server_base/server_base.cc).
- Request handlers, protobuf and thrift messages, AES, curl and JSON; of src/futures_proxy.cc only the
  get, call, free pattern and the double `toString()`.
- The unused parser helpers `trim` and `getline_from_buf`, mime types and configuration flags.
- Nothing was executed: all statements are about the model.
