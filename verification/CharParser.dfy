/** The older, character-by-character parser `consume`, and its agreement with prase_http. */
module CharParser {
  import opened Options
  import opened CText
  import opened HttpRequest
  import opened RequestParser
  import opened ParserStream
  import opened RequestText

  /** The yield point at which the coroutine resumes. */
  datatype Point =
    | Start | Method | Uri | H | T1 | T2 | P | Slash | MajorFirst | Major | MinorFirst | Minor | NewLine1
    | Headers | Continuation | Name | SpaceAfterColon | Value | NewLine2 | FinalNewLine | Content | Finished

  datatype Step = Step(point: Point, length: nat, fields: Fields, verdict: Verdict)

  predicate IsSeparator(c: char) { c == ' ' || c == '\t' }

  predicate IsValueChar(c: char) { IsChar(c) && !IsCtl(c) && c != '\r' }

  function Fail(length: nat, f: Fields): (step: Step) { Step(Finished, length, f, Reject) }

  function Wait(p: Point, length: nat, f: Fields): (step: Step) { Step(p, length, f, NeedMore) }

  /** Expects exactly the character e. */
  function Expect(c: char, e: char, p: Point, length: nat, f: Fields): (step: Step) {
    if c == e then Wait(p, length, f) else Fail(length, f)
  }

  /** The fields with one more character at the end of the last header's name or value. */
  function ExtendName(f: Fields, c: char): (g: Fields)
    requires f.headers != []
  {
    var n := |f.headers| - 1;
    f.(headers := f.headers[n := f.headers[n].(name := f.headers[n].name + [c])])
  }

  function ExtendValue(f: Fields, c: char): (g: Fields)
    requires f.headers != []
  {
    var n := |f.headers| - 1;
    f.(headers := f.headers[n := f.headers[n].(value := f.headers[n].value + [c])])
  }

  function MethodStep(length: nat, f: Fields, c: char): (step: Step) {
    if IsTokenChar(c) then Wait(Method, length, f.(verb := f.verb + [c]))
    else if f.verb == "" then Fail(length, f)
    else Expect(c, ' ', Uri, length, f)
  }

  function ValueStep(length: nat, f: Fields, c: char): (step: Step)
    requires f.headers != []
  {
    if IsValueChar(c) then Wait(Value, length, ExtendValue(f, c)) else Expect(c, '\r', NewLine2, length, f)
  }

  /** The points at which a header has been begun. */
  predicate InHeaders(p: Point) {
    p.Continuation? || p.Name? || p.SpaceAfterColon? || p.Value?
  }

  /** One call of consume. */
  function ConsumeStep(p: Point, length: nat, f: Fields, c: char): (r: Step)
    requires InHeaders(p) ==> f.headers != []
    ensures InHeaders(r.point) ==> r.fields.headers != []
  {
    match p
    case Start =>
      MethodStep(0, f.(verb := "", uri := "", major := 0, minor := 0, headers := [], content := ""), c)
    case Method => MethodStep(length, f, c)
    case Uri =>
      if !IsCtl(c) && c != ' ' then Wait(Uri, length, f.(uri := f.uri + [c]))
      else if f.uri == "" then Fail(length, f)
      else Expect(c, ' ', H, length, f)
    case H => Expect(c, 'H', T1, length, f)
    case T1 => Expect(c, 'T', T2, length, f)
    case T2 => Expect(c, 'T', P, length, f)
    case P => Expect(c, 'P', Slash, length, f)
    case Slash => Expect(c, '/', MajorFirst, length, f)
    case MajorFirst =>
      if IsDigit(c) then Wait(Major, length, f.(major := f.major * 10 + (c - '0') as int)) else Fail(length, f)
    case Major =>
      if IsDigit(c) then Wait(Major, length, f.(major := f.major * 10 + (c - '0') as int))
      else Expect(c, '.', MinorFirst, length, f)
    case MinorFirst =>
      if IsDigit(c) then Wait(Minor, length, f.(minor := f.minor * 10 + (c - '0') as int)) else Fail(length, f)
    case Minor =>
      if IsDigit(c) then Wait(Minor, length, f.(minor := f.minor * 10 + (c - '0') as int))
      else Expect(c, '\r', NewLine1, length, f)
    case NewLine1 => Expect(c, '\n', Headers, length, f)
    case Headers =>
      if IsSeparator(c) then (if f.headers == [] then Fail(length, f) else Wait(Continuation, length, f))
      else if IsTokenChar(c) && c != '\r' then
        Wait(Name, length, ExtendName(f.(headers := f.headers + [Header("", "")]), c))
      else Expect(c, '\r', FinalNewLine, length, f)
    case Continuation =>
      if IsSeparator(c) then Wait(Continuation, length, f) else ValueStep(length, f, c)
    case Name =>
      if IsTokenChar(c) && c != ':' then Wait(Name, length, ExtendName(f, c))
      else Expect(c, ':', SpaceAfterColon, length, f)
    case SpaceAfterColon => Expect(c, ' ', Value, length, f)
    case Value => ValueStep(length, f, c)
    case NewLine2 => Expect(c, '\n', Headers, length, f)
    case FinalNewLine =>
      if c != '\n' then Fail(length, f)
      else
        var r := ScanLength(f.(contentLength := length), 0);
        if !r.ok then Fail(r.fields.contentLength, f)
        else if |f.content| < r.fields.contentLength then Wait(Content, r.fields.contentLength, f)
        else Step(Finished, r.fields.contentLength, f, Accept)
    case Content =>
      var g := f.(content := f.content + [c]);
      if |g.content| < length then Wait(Content, length, g) else Step(Finished, length, g, Accept)
    case Finished => Step(Finished, length, f, Accept)
  }

  /** The characters that are refused at each point. */
  ghost predicate Refused(p: Point, f: Fields, c: char) {
    var token := 'a' <= c <= 'z' || 'A' <= c <= 'Z' || '0' <= c <= '9' || c in "!#$%&'*+-.^_`|~";
    var control := c as int < 32 || c as int == 127;
    match p
    case Start => !token
    case Method => !token && (c != ' ' || f.verb == "")
    case Uri => control || (c == ' ' && f.uri == "")
    case H => c != 'H'
    case T1 => c != 'T'
    case T2 => c != 'T'
    case P => c != 'P'
    case Slash => c != '/'
    case MajorFirst => c !in "0123456789"
    case Major => c !in "0123456789."
    case MinorFirst => c !in "0123456789"
    case Minor => c !in "0123456789\r"
    case NewLine1 => c != '\n'
    case Headers => if c in " \t" then f.headers == [] else !token && c != '\r'
    case Continuation => (control && c !in "\t\r") || c as int > 127
    case Name => !token && c != ':'
    case SpaceAfterColon => c != ' '
    case Value => (control && c != '\r') || c as int > 127
    case NewLine2 => c != '\n'
    case FinalNewLine => c != '\n' || !LengthsCast(f.headers)
    case Content => false
    case Finished => false
  }

  /** The parser stops at exactly these characters. */
  lemma {:induction false} ConsumeRefusesExactly(p: Point, length: nat, f: Fields, c: char)
    requires InHeaders(p) ==> f.headers != []
    ensures ConsumeStep(p, length, f, c).verdict == Reject <==> Refused(p, f, c)
    ensures ConsumeStep(p, length, f, c).verdict == Reject ==> ConsumeStep(p, length, f, c).point == Finished
  {
    hide LexicalCastSize, HeadersEqual, ScanLength, IsTspecial;
    TokenChars(c);
    LastLengthWins(f.(contentLength := length), 0);
  }

  // ---- the class

  class Parser {
    var point: Point
    var contentLength: nat

    constructor ()
      ensures point == Start && contentLength == 0
    {
      point, contentLength := Start, 0;
    }

    /** `if (c != e) return false; yield`, to go on at `next`. */
    method Expect(c: char, e: char, next: Point) returns (v: Verdict)
      modifies `point
      ensures if c == e then v == NeedMore && point == next else v == Reject && point == Finished
    {
      if c != e {
        point := Finished;
        return Reject;
      }
      point := next;
      return NeedMore;
    }

    /** The loop that collects a header value, entered with c. */
    method ValueLoop(req: Request, c: char) returns (v: Verdict)
      requires req.headers != []
      modifies this, req
      ensures Step(point, contentLength, req.Value(), v) == ValueStep(old(contentLength), old(req.Value()), c)
    {
      if IsValueChar(c) {
        var last := |req.headers| - 1;
        req.headers := req.headers[last := req.headers[last].(value := req.headers[last].value + [c])];
        point := Value;
        return NeedMore;
      }
      v := Expect(c, '\r', NewLine2);
    }

    /** The loop that collects the method, entered with c. */
    method MethodLoop(req: Request, c: char) returns (v: Verdict)
      modifies this, req
      ensures Step(point, contentLength, req.Value(), v) == MethodStep(old(contentLength), old(req.Value()), c)
    {
      if IsTokenChar(c) {
        req.verb := req.verb + [c];
        point := Method;
        return NeedMore;
      }
      if req.verb == "" {
        point := Finished;
        return Reject;
      }
      v := Expect(c, ' ', Uri);
    }

    /** The loop that collects header lines, entered with c. */
    method HeaderLoop(req: Request, c: char) returns (v: Verdict)
      requires point == Headers
      modifies this, req
      ensures Step(point, contentLength, req.Value(), v)
           == ConsumeStep(Headers, old(contentLength), old(req.Value()), c)
    {
      if IsSeparator(c) {
        if req.headers == [] {
          point := Finished;
          return Reject;
        }
        point := Continuation;
        return NeedMore;
      }
      if IsTokenChar(c) && c != '\r' {
        req.headers := req.headers + [Header("", "")];
        var last := |req.headers| - 1;
        req.headers := req.headers[last := req.headers[last].(name := req.headers[last].name + [c])];
        point := Name;
        return NeedMore;
      }
      v := Expect(c, '\r', FinalNewLine);
    }

    /** The end of the header: the last usable Content-Length counts, an unusable one fails. */
    method EndOfHeader(req: Request, c: char) returns (v: Verdict)
      requires point == FinalNewLine
      modifies this
      ensures Step(point, contentLength, req.Value(), v)
           == ConsumeStep(FinalNewLine, old(contentLength), old(req.Value()), c)
    {
      point := Finished;
      if c != '\n' {
        return Reject;
      }
      ghost var f := req.Value().(contentLength := contentLength);
      var i := 0;
      ghost var flag := f.bheader;
      while i < |req.headers|
        invariant i <= |req.headers| && point == Finished
        invariant ScanLength(f, 0) == ScanLength(f.(contentLength := contentLength, bheader := flag), i)
      {
        if HeadersEqual(req.headers[i].name, CONTENT_LENGTH) {
          var cast := LexicalCastSize(req.headers[i].value);
          if cast.None? {
            return Reject;
          }
          contentLength, flag := cast.value, true;
        }
        i := i + 1;
      }
      if |req.content| < contentLength {
        point := Content;
        return NeedMore;
      }
      return Accept;
    }

    /** consume. */
    method Consume(req: Request, c: char) returns (v: Verdict)
      requires InHeaders(point) ==> req.headers != []
      modifies this, req
      ensures Step(point, contentLength, req.Value(), v)
           == ConsumeStep(old(point), old(contentLength), old(req.Value()), c)
      ensures InHeaders(point) ==> req.headers != []
    {
      match point
      case Start =>
        req.verb, req.uri, req.httpVersionMajor, req.httpVersionMinor := "", "", 0, 0;
        req.headers, req.content, contentLength := [], "", 0;
        v := MethodLoop(req, c);
      case Method =>
        v := MethodLoop(req, c);
      case Uri =>
        if !IsCtl(c) && c != ' ' {
          req.uri := req.uri + [c];
          return NeedMore;
        }
        if req.uri == "" {
          point := Finished;
          return Reject;
        }
        v := Expect(c, ' ', H);
      case H => v := Expect(c, 'H', T1);
      case T1 => v := Expect(c, 'T', T2);
      case T2 => v := Expect(c, 'T', P);
      case P => v := Expect(c, 'P', Slash);
      case Slash => v := Expect(c, '/', MajorFirst);
      case MajorFirst =>
        if !IsDigit(c) {
          point := Finished;
          return Reject;
        }
        req.httpVersionMajor := req.httpVersionMajor * 10 + (c - '0') as int;
        point := Major;
        return NeedMore;
      case Major =>
        if IsDigit(c) {
          req.httpVersionMajor := req.httpVersionMajor * 10 + (c - '0') as int;
          return NeedMore;
        }
        v := Expect(c, '.', MinorFirst);
      case MinorFirst =>
        if !IsDigit(c) {
          point := Finished;
          return Reject;
        }
        req.httpVersionMinor := req.httpVersionMinor * 10 + (c - '0') as int;
        point := Minor;
        return NeedMore;
      case Minor =>
        if IsDigit(c) {
          req.httpVersionMinor := req.httpVersionMinor * 10 + (c - '0') as int;
          return NeedMore;
        }
        v := Expect(c, '\r', NewLine1);
      case NewLine1 => v := Expect(c, '\n', Headers);
      case Headers => v := HeaderLoop(req, c);
      case Continuation =>
        if IsSeparator(c) {
          return NeedMore;
        }
        v := ValueLoop(req, c);
      case Name =>
        if IsTokenChar(c) && c != ':' {
          var last := |req.headers| - 1;
          req.headers := req.headers[last := req.headers[last].(name := req.headers[last].name + [c])];
          return NeedMore;
        }
        v := Expect(c, ':', SpaceAfterColon);
      case SpaceAfterColon => v := Expect(c, ' ', Value);
      case Value => v := ValueLoop(req, c);
      case NewLine2 => v := Expect(c, '\n', Headers);
      case FinalNewLine => v := EndOfHeader(req, c);
      case Content =>
        req.content := req.content + [c];
        if |req.content| < contentLength {
          return NeedMore;
        }
        point := Finished;
        return Accept;
      case Finished => return Accept;
    }
  }

  // ---- a text, character by character

  /** The answer to the character that decided the text, or to its last one, and the characters used. */
  datatype Fed = Fed(step: Step, used: nat)

  function Feed(p: Point, length: nat, f: Fields, text: string): (r: Fed)
    requires InHeaders(p) ==> f.headers != []
    ensures InHeaders(r.step.point) ==> r.step.fields.headers != []
    decreases |text|
  {
    if text == "" then Fed(Wait(p, length, f), 0)
    else
      var r := ConsumeStep(p, length, f, text[0]);
      if r.verdict != NeedMore then Fed(r, 1)
      else
        var rest := Feed(r.point, r.length, r.fields, text[1..]);
        rest.(used := rest.used + 1)
  }

  /** A text that leaves the parser waiting can be continued. */
  lemma {:induction false} FeedAppend(p: Point, length: nat, f: Fields, a: string, b: string)
    requires InHeaders(p) ==> f.headers != []
    ensures var x := Feed(p, length, f, a);
            x.step.verdict == NeedMore ==>
              var y := Feed(x.step.point, x.step.length, x.step.fields, b);
              x.used == |a| && Feed(p, length, f, a + b) == y.(used := |a| + y.used)
    decreases |a|
  {
    hide ConsumeStep;
    if a == "" {
      assert a + b == b;
    } else {
      var r := ConsumeStep(p, length, f, a[0]);
      assert (a + b)[1..] == a[1..] + b;
      if r.verdict == NeedMore {
        FeedAppend(r.point, r.length, r.fields, a[1..], b);
      }
    }
  }

  /** The text takes the parser from one wait to another; no Content-Length has been read yet. */
  ghost predicate Passes(p: Point, f: Fields, text: string, q: Point, g: Fields) {
    (InHeaders(p) ==> f.headers != []) && Feed(p, 0, f, text) == Fed(Wait(q, 0, g), |text|)
  }

  lemma {:induction false} PassesAppend(p: Point, f: Fields, a: string, q: Point, g: Fields,
                                         b: string, s: Point, e: Fields)
    requires Passes(p, f, a, q, g) && Passes(q, g, b, s, e)
    ensures Passes(p, f, a + b, s, e)
  {
    hide ConsumeStep, Feed;
    FeedAppend(p, 0, f, a, b);
  }

  /** A single character. */
  lemma {:induction false} PassesOne(p: Point, f: Fields, c: char, q: Point, g: Fields)
    requires InHeaders(p) ==> f.headers != []
    requires ConsumeStep(p, 0, f, c) == Wait(q, 0, g)
    ensures Passes(p, f, [c], q, g)
  {
    hide ConsumeStep;
    assert [c][1..] == "";
    assert Feed(q, 0, g, "") == Fed(Wait(q, 0, g), 0);
  }

  // ---- the loops

  lemma {:induction false} MethodLoop(f: Fields, token: string)
    requires forall i :: 0 <= i < |token| ==> IsTokenChar(token[i])
    ensures Passes(Method, f, token, Method, f.(verb := f.verb + token))
    decreases |token|
  {
    if token == "" {
      assert f.verb + token == f.verb;
    } else {
      MethodLoop(f.(verb := f.verb + [token[0]]), token[1..]);
      assert f.verb + [token[0]] + token[1..] == f.verb + token;
    }
  }

  lemma {:induction false} UriLoop(f: Fields, uri: string)
    requires forall i :: 0 <= i < |uri| ==> !IsCtl(uri[i]) && uri[i] != ' '
    ensures Passes(Uri, f, uri, Uri, f.(uri := f.uri + uri))
    decreases |uri|
  {
    if uri == "" {
      assert f.uri + uri == f.uri;
    } else {
      UriLoop(f.(uri := f.uri + [uri[0]]), uri[1..]);
      assert f.uri + [uri[0]] + uri[1..] == f.uri + uri;
    }
  }

  lemma {:induction false} NextDigit(done: string, c: char)
    requires AllDigits(done) && IsDigit(c)
    ensures AllDigits(done + [c]) && DigitsValue(done + [c]) == DigitsValue(done) * 10 + (c - '0') as nat
  {
    assert (done + [c])[..|done|] == done;
  }

  lemma {:induction false} MajorLoop(f: Fields, done: string, digits: string)
    requires AllDigits(done) && AllDigits(digits) && f.major == DigitsValue(done)
    ensures AllDigits(done + digits) && Passes(Major, f, digits, Major, f.(major := DigitsValue(done + digits)))
    decreases |digits|
  {
    hide DigitsValue;
    if digits == "" {
      assert done + digits == done;
    } else {
      var next := done + [digits[0]];
      NextDigit(done, digits[0]);
      assert next + digits[1..] == done + digits;
      MajorLoop(f.(major := DigitsValue(next)), next, digits[1..]);
    }
  }

  lemma {:induction false} MinorLoop(f: Fields, done: string, digits: string)
    requires AllDigits(done) && AllDigits(digits) && f.minor == DigitsValue(done)
    ensures AllDigits(done + digits) && Passes(Minor, f, digits, Minor, f.(minor := DigitsValue(done + digits)))
    decreases |digits|
  {
    hide DigitsValue;
    if digits == "" {
      assert done + digits == done;
    } else {
      var next := done + [digits[0]];
      NextDigit(done, digits[0]);
      assert next + digits[1..] == done + digits;
      MinorLoop(f.(minor := DigitsValue(next)), next, digits[1..]);
    }
  }

  /** The fields with one more header. */
  function PushHeader(f: Fields, name: string, value: string): (g: Fields) {
    f.(headers := f.headers + [Header(name, value)])
  }

  lemma {:induction false} NameLoop(f: Fields, name: string, more: string)
    requires forall i :: 0 <= i < |more| ==> IsTokenChar(more[i])
    ensures Passes(Name, PushHeader(f, name, ""), more, Name, PushHeader(f, name + more, ""))
    decreases |more|
  {
    if more == "" {
      assert name + more == name;
    } else {
      NameLoop(f, name + [more[0]], more[1..]);
      assert name + [more[0]] + more[1..] == name + more;
      assert ExtendName(PushHeader(f, name, ""), more[0]) == PushHeader(f, name + [more[0]], "");
    }
  }

  lemma {:induction false} ValueLoop(f: Fields, name: string, value: string, more: string)
    requires forall i :: 0 <= i < |more| ==> IsValueChar(more[i])
    ensures Passes(Value, PushHeader(f, name, value), more, Value, PushHeader(f, name, value + more))
    decreases |more|
  {
    if more == "" {
      assert value + more == value;
    } else {
      ValueLoop(f, name, value + [more[0]], more[1..]);
      assert value + [more[0]] + more[1..] == value + more;
      assert ExtendValue(PushHeader(f, name, value), more[0]) == PushHeader(f, name, value + [more[0]]);
    }
  }

  // ---- a canonical request

  /** A request that both parsers take: visible uri characters, token names, printable trimmed values
      and an HTTP version of digits. */
  datatype Version = Version(major: string, minor: string) {
    predicate Valid() {
      major != "" && minor != "" && AllDigits(major) && AllDigits(minor)
    }

    function Text(): (t: string) {
      "HTTP/" + major + "." + minor
    }
  }

  predicate VisibleUri(uri: string) {
    forall i :: 0 <= i < |uri| ==> !IsCtl(uri[i]) && uri[i] != ' '
  }

  predicate Printable(hs: seq<Header>) {
    forall i :: 0 <= i < |hs| ==> forall k :: 0 <= k < |hs[i].value| ==> IsValueChar(hs[i].value[k])
  }

  lemma {:induction false} Chain(p: Point, f: Fields, a: string, q: Point, g: Fields, c: char, s: Point, e: Fields)
    requires Passes(p, f, a, q, g) && (InHeaders(q) ==> g.headers != []) && ConsumeStep(q, 0, g, c) == Wait(s, 0, e)
    ensures Passes(p, f, a + [c], s, e)
  {
    hide ConsumeStep, Feed;
    PassesOne(q, g, c, s, e);
    PassesAppend(p, f, a, q, g, [c], s, e);
  }

  lemma {:induction false} VersionPasses(f: Fields, v: Version)
    requires v.Valid() && f.major == 0 && f.minor == 0
    ensures Passes(H, f, v.Text(), Minor, f.(major := DigitsValue(v.major), minor := DigitsValue(v.minor)))
  {
    hide Feed, Passes;
    var g := f.(major := DigitsValue(v.major));
    ProtocolPasses(f);
    MajorPasses(f, v.major);
    PassesAppend(H, f, "HTTP/", MajorFirst, f, v.major, Major, g);
    Chain(H, f, "HTTP/" + v.major, Major, g, '.', MinorFirst, g);
    MinorPasses(g, v.minor);
    PassesAppend(H, f, "HTTP/" + v.major + ".", MinorFirst, g, v.minor, Minor, g.(minor := DigitsValue(v.minor)));
  }

  lemma {:induction false} ProtocolPasses(f: Fields)
    ensures Passes(H, f, "HTTP/", MajorFirst, f)
  {
    hide Feed, Passes;
    var text := "H";
    PassesOne(H, f, 'H', T1, f);
    Chain(H, f, text, T1, f, 'T', T2, f);
    Chain(H, f, text + "T", T2, f, 'T', P, f);
    Chain(H, f, text + "T" + "T", P, f, 'P', Slash, f);
    Chain(H, f, text + "T" + "T" + "P", Slash, f, '/', MajorFirst, f);
    assert text + "T" + "T" + "P" + "/" == "HTTP/";
  }

  lemma {:induction false} OneDigit(c: char)
    requires IsDigit(c)
    ensures AllDigits([c]) && DigitsValue([c]) == (c - '0') as nat
  {
    assert [c][..0] == "";
  }

  lemma {:induction false} MajorPasses(f: Fields, digits: string)
    requires digits != "" && AllDigits(digits) && f.major == 0
    ensures Passes(MajorFirst, f, digits, Major, f.(major := DigitsValue(digits)))
  {
    hide Feed, Passes;
    var first := digits[..1];
    var g := f.(major := DigitsValue(first));
    assert first == [digits[0]];
    OneDigit(digits[0]);
    PassesOne(MajorFirst, f, digits[0], Major, g);
    MajorLoop(g, first, digits[1..]);
    assert first + digits[1..] == digits;
    PassesAppend(MajorFirst, f, first, Major, g, digits[1..], Major, f.(major := DigitsValue(digits)));
  }

  lemma {:induction false} MinorPasses(f: Fields, digits: string)
    requires digits != "" && AllDigits(digits) && f.minor == 0
    ensures Passes(MinorFirst, f, digits, Minor, f.(minor := DigitsValue(digits)))
  {
    hide Feed, Passes;
    var first := digits[..1];
    var g := f.(minor := DigitsValue(first));
    assert first == [digits[0]];
    OneDigit(digits[0]);
    PassesOne(MinorFirst, f, digits[0], Minor, g);
    MinorLoop(g, first, digits[1..]);
    assert first + digits[1..] == digits;
    PassesAppend(MinorFirst, f, first, Minor, g, digits[1..], Minor, f.(minor := DigitsValue(digits)));
  }

  /** The fields that `consume` has filled in after the request line. */
  function AfterLine(uri: string, v: Version): (g: Fields)
    requires v.Valid()
  {
    RESET.(verb := "POST", uri := "/" + uri, major := DigitsValue(v.major), minor := DigitsValue(v.minor))
  }

  lemma {:induction false} RequestLinePasses(uri: string, v: Version)
    requires VisibleUri(uri) && v.Valid()
    ensures Passes(Start, RESET, "POST /" + uri + " " + v.Text() + CRLF, Headers, AfterLine(uri, v))
  {
    hide Feed, Passes, ConsumeStep, DigitsValue;
    var f3, f4 := RESET.(verb := "POST", uri := "/" + uri), AfterLine(uri, v);
    var text := "POST " + ("/" + uri) + " ";
    TargetPasses(uri);
    VersionPasses(f3, v);
    PassesAppend(Start, RESET, text, H, f3, v.Text(), Minor, f4);
    LineEndPasses(f4);
    PassesAppend(Start, RESET, text + v.Text(), Minor, f4, CRLF, Headers, f4);
    assert text + v.Text() + CRLF == "POST /" + uri + " " + v.Text() + CRLF;
  }

  lemma {:induction false} LineEndPasses(f: Fields)
    ensures Passes(Minor, f, CRLF, Headers, f)
  {
    hide Feed, Passes;
    PassesOne(Minor, f, '\r', NewLine1, f);
    Chain(Minor, f, "\r", NewLine1, f, '\n', Headers, f);
    assert "\r" + "\n" == CRLF;
  }

  lemma {:induction false} TargetPasses(uri: string)
    requires VisibleUri(uri)
    ensures Passes(Start, RESET, "POST " + ("/" + uri) + " ", H, RESET.(verb := "POST", uri := "/" + uri))
  {
    hide Feed, Passes;
    var f1, f2 := RESET.(verb := "P"), RESET.(verb := "POST");
    var f3 := f2.(uri := "/" + uri);
    PassesOne(Start, RESET, 'P', Method, f1);
    MethodLoop(f1, "OST");
    assert "P" + "OST" == "POST";
    PassesAppend(Start, RESET, "P", Method, f1, "OST", Method, f2);
    Chain(Start, RESET, "POST", Method, f2, ' ', Uri, f2);
    assert "POST " == "POST" + " ";
    UriLoop(f2, "/" + uri);
    assert f2.uri + ("/" + uri) == "/" + uri;
    PassesAppend(Start, RESET, "POST ", Uri, f2, "/" + uri, Uri, f3);
    Chain(Start, RESET, "POST " + ("/" + uri), Uri, f3, ' ', H, f3);
  }

  lemma {:induction false} BeginHeader(f: Fields, c: char)
    ensures ExtendName(f.(headers := f.headers + [Header("", "")]), c) == PushHeader(f, [c], "")
  {
    assert "" + [c] == [c];
  }

  lemma {:induction false} HeaderPasses(f: Fields, h: Header)
    requires IsCanonical(h) && forall k :: 0 <= k < |h.value| ==> IsValueChar(h.value[k])
    ensures Passes(Headers, f, HeaderLine(h), Headers, PushHeader(f, h.name, h.value))
  {
    hide Feed, Passes, ConsumeStep;
    var f2, f3 := PushHeader(f, h.name, ""), PushHeader(f, h.name, h.value);
    var before := h.name + ":" + " ";
    NamePasses(f, h.name);
    ValueLoop(f, h.name, "", h.value);
    assert "" + h.value == h.value;
    PassesAppend(Headers, f, before, Value, f2, h.value, Value, f3);
    ValueEndPasses(f3);
    PassesAppend(Headers, f, before + h.value, Value, f3, CRLF, Headers, f3);
    assert before + h.value + CRLF == HeaderLine(h);
  }

  lemma {:induction false} NamePasses(f: Fields, name: string)
    requires IsToken(name)
    ensures Passes(Headers, f, name + ":" + " ", Value, PushHeader(f, name, ""))
  {
    hide Feed, Passes;
    var first := [name[0]];
    var f1, f2 := PushHeader(f, first, ""), PushHeader(f, name, "");
    BeginHeader(f, name[0]);
    PassesOne(Headers, f, name[0], Name, f1);
    NameLoop(f, first, name[1..]);
    assert first + name[1..] == name;
    PassesAppend(Headers, f, first, Name, f1, name[1..], Name, f2);
    Chain(Headers, f, name, Name, f2, ':', SpaceAfterColon, f2);
    Chain(Headers, f, name + ":", SpaceAfterColon, f2, ' ', Value, f2);
  }

  lemma {:induction false} ValueEndPasses(f: Fields)
    requires f.headers != []
    ensures Passes(Value, f, CRLF, Headers, f)
  {
    hide Feed, Passes;
    PassesOne(Value, f, '\r', NewLine2, f);
    Chain(Value, f, "\r", NewLine2, f, '\n', Headers, f);
    assert "\r" + "\n" == CRLF;
  }

  lemma {:induction false} HeadersPass(f: Fields, hs: seq<Header>)
    requires AllCanonical(hs) && Printable(hs)
    ensures Passes(Headers, f, HeaderText(hs), Headers, f.(headers := f.headers + hs))
    decreases |hs|
  {
    hide ConsumeStep, HeaderLine, IsCanonical;
    if hs == [] {
      assert f.headers + hs == f.headers;
    } else {
      var g := PushHeader(f, hs[0].name, hs[0].value);
      HeaderPasses(f, hs[0]);
      HeadersPass(g, hs[1..]);
      assert f.headers + [hs[0]] + hs[1..] == f.headers + hs;
      PassesAppend(Headers, f, HeaderLine(hs[0]), Headers, g, HeaderText(hs[1..]), Headers,
                   f.(headers := f.headers + hs));
    }
  }

  lemma {:induction false} ContentLoop(length: nat, f: Fields, body: string)
    requires body != "" && |f.content| + |body| == length
    ensures Feed(Content, length, f, body)
         == Fed(Step(Finished, length, f.(content := f.content + body), Accept), |body|)
    decreases |body|
  {
    var g := f.(content := f.content + [body[0]]);
    if |body| > 1 {
      ContentLoop(length, g, body[1..]);
      assert f.content + [body[0]] + body[1..] == f.content + body;
    } else {
      assert [body[0]] == body;
    }
  }

  /** The line feed that ends the header, and the body. */
  lemma {:induction false} EndPasses(f: Fields, body: string)
    requires Declares(f.headers, |body|) && f.content == "" && !f.bheader
    ensures Feed(FinalNewLine, 0, f, "\n" + body)
         == Fed(Step(Finished, |body|, f.(content := body), Accept), 1 + |body|)
  {
    hide ScanLength, Feed;
    FeedOne(FinalNewLine, f, "\n" + body);
    ScanOnlyHeaders(RESET.(headers := f.headers), f.(contentLength := 0), 0);
    assert ("\n" + body)[0] == '\n' && ("\n" + body)[1..] == body;
    if body != "" {
      ContentLoop(|body|, f, body);
      assert "" + body == body;
    }
  }

  /** The first character of a text. */
  lemma {:induction false} FeedOne(p: Point, f: Fields, text: string)
    requires text != "" && (InHeaders(p) ==> f.headers != [])
    ensures var r := ConsumeStep(p, 0, f, text[0]);
            Feed(p, 0, f, text)
            == if r.verdict != NeedMore then Fed(r, 1)
               else var rest := Feed(r.point, r.length, r.fields, text[1..]); rest.(used := rest.used + 1)
  {
  }

  predicate Canonical(uri: string, v: Version, hs: seq<Header>, body: string) {
    Target(uri, v.Text()).Valid() && VisibleUri(uri) && v.Valid() && AllCanonical(hs) && Printable(hs) &&
    Declares(hs, |body|)
  }

  function CanonicalText(uri: string, v: Version, hs: seq<Header>, body: string): (t: string) {
    HeadText(Target(uri, v.Text()), hs) + body
  }

  /** What `consume` has read at the end of a canonical request. */
  lemma {:induction false} ConsumeAccepts(uri: string, v: Version, hs: seq<Header>, body: string)
    requires Canonical(uri, v, hs, body)
    ensures var text := CanonicalText(uri, v, hs, body);
            Feed(Start, 0, RESET, text)
            == Fed(Step(Finished, |body|, AfterLine(uri, v).(headers := hs, content := body), Accept), |text|)
  {
    hide Feed, Passes, ConsumeStep, Declares, DigitsValue, TrimUri, IsPlain;
    var line := Target(uri, v.Text()).Line();
    var f := AfterLine(uri, v);
    var g := f.(headers := hs);
    RequestLinePasses(uri, v);
    HeadersPass(f, hs);
    assert f.headers + hs == hs;
    PassesAppend(Start, RESET, line, Headers, f, HeaderText(hs), Headers, g);
    BlankLinePasses(g);
    PassesAppend(Start, RESET, line + HeaderText(hs), Headers, g, "\r", FinalNewLine, g);
    EndPasses(g, body);
    PassesThen(Start, RESET, line + HeaderText(hs) + "\r", FinalNewLine, g, "\n" + body);
    assert line + HeaderText(hs) + "\r" + ("\n" + body) == CanonicalText(uri, v, hs, body);
  }

  lemma {:induction false} BlankLinePasses(f: Fields)
    ensures Passes(Headers, f, "\r", FinalNewLine, f)
  {
    PassesOne(Headers, f, '\r', FinalNewLine, f);
  }

  lemma {:induction false} PassesThen(p: Point, f: Fields, a: string, q: Point, g: Fields, b: string)
    requires Passes(p, f, a, q, g)
    ensures InHeaders(q) ==> g.headers != []
    ensures var y := Feed(q, 0, g, b); Feed(p, 0, f, a + b) == y.(used := |a| + y.used)
  {
    hide ConsumeStep;
    FeedAppend(p, 0, f, a, b);
  }

  /** The two parsers agree: fed one character at a time, `consume` accepts a canonical request at its
      last character; prase_http accepts it under every chunking; the two requests agree. */
  lemma {:induction false} ParsersAgree(uri: string, v: Version, hs: seq<Header>, body: string, feed: seq<Read>)
    requires Canonical(uri, v, hs, body) && Stream(feed) == CanonicalText(uri, v, hs, body)
    requires feed != [] && Clear(feed[0]) && forall i :: 0 <= i < |feed| ==> feed[i].chunk != ""
    ensures var byChar, byChunk := Feed(Start, 0, RESET, CanonicalText(uri, v, hs, body)), Run(feed);
            byChar.used == |CanonicalText(uri, v, hs, body)| && byChunk.calls == |feed|
            && byChar.step.verdict == Accept && byChunk.last.verdict == Accept
            && Agree(byChar.step.fields, byChunk.last.fields)
  {
    hide Feed, ConsumeStep, Run, Declares, Stream, Clear, DigitsValue, HeadText, TrimUri, Received, Complete, IsPlain;
    ConsumeAccepts(uri, v, hs, body);
    RenderedIsComplete(Target(uri, v.Text()), hs, body);
    RunOnMessage(CanonicalText(uri, v, hs, body), feed);
    assert ("/" + uri)[1..] == uri;
    assert [] + hs == hs;
  }

  /** The same method, headers and content; the uri of prase_http is the trimmed uri of `consume`
      without its leading slash. */
  predicate Agree(byChar: Fields, byChunk: Fields) {
    byChunk.verb == byChar.verb && byChunk.headers == byChar.headers && byChunk.content == byChar.content &&
    byChar.uri != "" && byChunk.uri == TrimUri(byChar.uri[1..])
  }
}
