/** Requests as text: a header block is written out and read back. */
module RequestText {
  import opened Options
  import opened CText
  import opened HttpRequest

  // ---- character classes of request_parser

  predicate IsChar(c: char) { c as int <= 127 }

  predicate IsCtl(c: char) { c as int <= 31 || c as int == 127 }

  predicate IsTspecial(c: char) {
    c == '(' || c == ')' || c == '<' || c == '>' || c == '@' || c == ',' || c == ';' || c == ':' || c == '\\' ||
    c == '"' || c == '/' || c == '[' || c == ']' || c == '?' || c == '=' || c == '{' || c == '}' || c == ' ' ||
    c == '\t'
  }

  predicate IsTokenChar(c: char) { IsChar(c) && !IsCtl(c) && !IsTspecial(c) }

  /** These are the token characters that section 3.2.6 of RFC 7230 lists. */
  lemma {:induction false} TokenChars(c: char)
    ensures IsTokenChar(c) <==> 'a' <= c <= 'z' || 'A' <= c <= 'Z' || '0' <= c <= '9' || c in "!#$%&'*+-.^_`|~"
  {
  }

  /** No byte that ends a line or a C string. */
  predicate IsPlain(s: string) {
    forall i :: 0 <= i < |s| ==> s[i] != '\r' && s[i] != '\n' && s[i] != NUL
  }

  predicate IsToken(s: string) {
    s != "" && forall i :: 0 <= i < |s| ==> IsTokenChar(s[i])
  }

  predicate IsCanonical(h: Header) {
    IsToken(h.name) && IsPlain(h.value) && Trimmed(h.value)
  }

  predicate AllCanonical(hs: seq<Header>) {
    forall i :: 0 <= i < |hs| ==> IsCanonical(hs[i])
  }

  // ---- writing

  function HeaderLine(h: Header): (t: string) {
    h.name + ": " + h.value + CRLF
  }

  function HeaderText(hs: seq<Header>): (t: string) {
    if hs == [] then "" else HeaderLine(hs[0]) + HeaderText(hs[1..])
  }

  /** Target and version of a POST request line. */
  datatype Target = Target(uri: string, version: string) {
    predicate Valid() {
      IsPlain(uri) && IsPlain(version) && uri != "" && ' ' !in uri && TrimUri(uri) != ""
    }

    function Line(): (t: string) {
      "POST /" + uri + " " + version + CRLF
    }
  }

  function HeadText(t: Target, hs: seq<Header>): (text: string) {
    t.Line() + HeaderText(hs) + CRLF
  }

  // ---- searching in lines

  lemma {:induction false} StrStrSkip(s: string, p: string, from: nat, upto: nat)
    requires from <= upto <= |s| && forall j :: from <= j < upto ==> !MatchesAt(s, p, j) && s[j] != NUL
    ensures StrStr(s, p, from) == StrStr(s, p, upto)
    decreases upto - from
  {
    if from < upto {
      StrStrSkip(s, p, from + 1, upto);
    }
  }

  /** The line that starts at `at` is the text up to the first CRLF. */
  lemma {:induction false} LineFound(s: string, at: nat, line: string)
    requires IsPlain(line) && at + |line| + 2 <= |s| && s[at..at + |line| + 2] == line + CRLF
    ensures StrStr(s, CRLF, at) == Some(at + |line|)
    ensures forall j :: at <= j < at + |line| ==> s[j] != '\r' && s[j] != '\n' && s[j] != NUL
    ensures s[at + |line|] == '\r' && s[at + |line| + 1] == '\n'
  {
    var e := at + |line|;
    forall j | at <= j < e ensures s[j] == line[j - at] {
      assert s[j] == s[at..e + 2][j - at];
    }
    assert s[e] == s[at..e + 2][|line|] && s[e + 1] == s[at..e + 2][|line| + 1];
    assert s[e..e + 2] == CRLF;
    forall j | at <= j < e ensures !MatchesAt(s, CRLF, j) {
      NoMatchByChar(s, CRLF, j, 0);
    }
    assert FirstMatch(s, CRLF, at, e);
    FirstMatchIs(s, CRLF, at, e);
  }

  /** No end marker begins in a line that another line or more text follows. */
  lemma {:induction false} NoMarkerInLine(s: string, at: nat, line: string)
    requires IsPlain(line) && at + |line| + 2 < |s| && s[at..at + |line| + 2] == line + CRLF
    requires s[at + |line| + 2] != '\r'
    ensures StrStr(s, HTTP_END, at) == StrStr(s, HTTP_END, at + |line| + 2)
  {
    hide StrStr;
    LineFound(s, at, line);
    var e := at + |line|;
    forall j | at <= j < e + 2 ensures !MatchesAt(s, HTTP_END, j) && s[j] != NUL {
      NoMatchByChar(s, HTTP_END, j, if j == e then 2 else 0);
    }
    StrStrSkip(s, HTTP_END, at, e + 2);
  }

  // ---- single lines

  lemma {:induction false} IndexOfIs(s: string, c: char, from: nat, i: nat)
    requires from <= i <= |s| && (i < |s| ==> s[i] == c) && forall k :: from <= k < i ==> s[k] != c
    ensures IndexOf(s, c, from) == i
  {
  }

  lemma {:induction false} StopAtIs(s: string, c: char, from: nat, i: nat)
    requires from <= i < |s| && s[i] == c && forall k :: from <= k < i ==> s[k] != c && s[k] != NUL
    ensures StopAt(s, c, from) == i
  {
  }

  /** A rendered header reads back as itself. */
  lemma {:induction false} MimeReadsBack(f: Fields, h: Header)
    requires IsCanonical(h)
    ensures MimeLine(f, HeaderLine(h))
         == LineResult(f.(headers := f.headers + [h], cmd := if h.name == "User-cmd" then h.value else f.cmd), true)
  {
    hide StopAt, Trim;
    HeaderLineParts(h);
    var line, n, v := HeaderLine(h), |h.name|, |h.value|;
    StopAtIs(line, ':', 0, n);
    StopAtIs(line, '\n', n + 1, n + v + 3);
    TrimSurrounded("", h.name, "");
    TrimSurrounded(" ", h.value, CRLF);
  }

  lemma {:induction false} HeaderLineParts(h: Header)
    requires IsCanonical(h)
    ensures var line, n, v := HeaderLine(h), |h.name|, |h.value|;
            |line| == n + v + 4 && line[..n] == "" + h.name + "" && line[n] == ':'
            && line[n + 1..n + v + 4] == " " + h.value + CRLF && line[n + v + 3] == '\n'
            && (forall k :: 0 <= k < n ==> line[k] != ':' && line[k] != NUL)
            && (forall k :: n + 1 <= k < n + v + 3 ==> line[k] != '\n' && line[k] != NUL)
            && Trimmed(h.name)
  {
    var line, n, v := HeaderLine(h), |h.name|, |h.value|;
    forall k | 0 <= k < n ensures line[k] == h.name[k] && IsTokenChar(h.name[k]) {
    }
    forall k | n + 1 <= k < n + v + 3 ensures line[k] == (" " + h.value + CRLF)[k - (n + 1)] {
    }
  }

  lemma {:induction false} TargetLineParts(t: Target)
    requires t.Valid()
    ensures var line, u := t.Line(), |t.uri|;
            IsLine(line) && POST <= line && |line| > 8 + u && line[..4] == "POST" && line[4] == ' ' && line[5] == '/'
            && line[6..6 + u] == t.uri && line[6 + u] == ' '
            && (forall k :: 0 <= k < 4 ==> line[k] != ' ') && (forall k :: 6 <= k < 6 + u ==> line[k] != ' ')
  {
    var line, u := t.Line(), |t.uri|;
    assert line[|line| - 2..] == CRLF && line[..5] == POST && line[6..6 + u] == t.uri;
    forall k | 6 <= k < 6 + u ensures line[k] != ' ' {
      assert line[k] == t.uri[k - 6];
    }
  }

  /** The request line gives the method and the trimmed uri without its leading slash. */
  lemma {:induction false} UriReadsBack(f: Fields, t: Target)
    requires t.Valid()
    ensures IsLine(t.Line()) && POST <= t.Line()
    ensures UriLine(f, t.Line()) == LineResult(f.(verb := f.verb + "POST", uri := TrimUri(t.uri)), true)
  {
    hide TrimUri, IsLine;
    var line := t.Line();
    TargetLineParts(t);
    hide IndexOf;
    IndexOfIs(line, ' ', 0, 4);
    IndexOfIs(line, ' ', 7, 6 + |t.uri|);
    assert SkipAll(line, ' ', 4) == 5;
  }

  lemma {:induction false} SkipAllIs(s: string, c: char, from: nat, i: nat)
    requires from <= i <= |s| && (i < |s| ==> s[i] != c) && forall k :: from <= k < i ==> s[k] == c
    ensures SkipAll(s, c, from) == i
  {
  }

  predicate AllBlank(s: string) {
    forall i :: 0 <= i < |s| ==> s[i] == ' '
  }

  lemma {:induction false} PostLineParts(blanks: string, rest: string)
    requires AllBlank(blanks) && rest != "" && rest[0] != ' '
    ensures var line, n := POST + blanks + rest, 5 + |blanks|;
            IndexOf(line, ' ', 0) == 4 && SkipAll(line, ' ', 4) == n && line[n] == rest[0] && line[..4] == "POST"
            && |line| == n + |rest| && line[n..] == rest && line[n + 1..] == rest[1..]
  {
    var line, n := POST + blanks + rest, 5 + |blanks|;
    IndexOfIs(line, ' ', 0, 4);
    assert forall k :: 5 <= k < n ==> line[k] == blanks[k - 5];
    SkipAllIs(line, ' ', 4, n);
  }

  /** Any number of spaces may come before the target, and a slash at its beginning is dropped. */
  lemma {:induction false} UriLineReads(f: Fields, blanks: string, target: string, rest: string)
    requires AllBlank(blanks) && target != "" && ' ' !in target && target != "/"
    requires IsLine(POST + blanks + (target + " " + rest))
    ensures UriLine(f, POST + blanks + (target + " " + rest))
         == LineResult(f.(verb := f.verb + "POST",
                          uri := TrimUri(if target[0] == '/' then target[1..] else target)), true)
  {
    hide TrimUri, IsLine, IndexOf, SkipAll;
    var tail := target + " " + rest;
    var line, n := POST + blanks + tail, 5 + |blanks|;
    PostLineParts(blanks, tail);
    var q := if target[0] == '/' then n + 1 else n;
    forall k | n <= k < n + |target| ensures line[k] == target[k - n] {
      assert line[k] == line[n..][k - n];
    }
    assert line[n + |target|] == line[n..][|target|] == ' ';
    IndexOfIs(line, ' ', q + 1, n + |target|);
    assert line[n..n + |target|] == target && line[n + 1..n + |target|] == target[1..];
  }

  /** A request line without a second space is refused; so is the target "/" alone, because its slash
      is dropped and the space behind it is taken for the first character of the target. */
  lemma {:induction false} UriLineRefuses(f: Fields, blanks: string, rest: string)
    requires AllBlank(blanks) && IsLine(POST + blanks + rest) && rest != "" && rest[0] != ' '
    requires ' ' !in rest || ("/ " <= rest && ' ' !in rest[2..])
    ensures UriLine(f, POST + blanks + rest) == LineResult(f.(verb := f.verb + "POST"), false)
  {
    hide TrimUri, IndexOf, SkipAll;
    var line, n := POST + blanks + rest, 5 + |blanks|;
    PostLineParts(blanks, rest);
    var q := if rest[0] == '/' then n + 1 else n;
    forall k | q + 1 <= k < |line| ensures line[k] != ' ' {
      assert line[k] == line[n..][k - n] == rest[k - n];
      assert "/ " <= rest && k > n + 1 ==> rest[k - n] == rest[2..][k - n - 2];
    }
    IndexOfIs(line, ' ', q + 1, |line|);
  }

  /** A header line is cut at its first colon, and both parts are trimmed. */
  lemma {:induction false} MimeLineReads(f: Fields, name: string, value: string)
    requires ':' !in name && NUL !in name && '\n' !in value && NUL !in value
    ensures var h := Header(Trim(name), Trim(value + "\n"));
            MimeLine(f, name + ":" + value + "\n")
            == LineResult(f.(headers := f.headers + [h], cmd := if h.name == "User-cmd" then h.value else f.cmd), true)
  {
    hide StopAt, Trim;
    var line, n := name + ":" + value + "\n", |name|;
    forall k | n < k < n + 1 + |value| ensures line[k] == value[k - n - 1] {
    }
    StopAtIs(line, ':', 0, n);
    StopAtIs(line, '\n', n + 1, n + 1 + |value|);
    assert line[..n] == name && line[n + 1..n + 1 + |value| + 1] == value + "\n";
  }

  /** One without a colon, or with a NUL before it, is refused. */
  lemma {:induction false} MimeLineRefuses(f: Fields, line: string, n: nat)
    requires n <= |line| && ':' !in line[..n] && (n < |line| ==> line[n] == NUL)
    ensures MimeLine(f, line) == LineResult(f, false)
  {
    hide StopAt, Trim;
    var c := StopAt(line, ':', 0);
    assert c < n ==> line[c] == line[..n][c];
  }

  /** A uri without a query, a slash or a scheme is kept as it is. */
  lemma {:induction false} TrimUriKeeps(uri: string)
    requires '?' !in uri && '/' !in uri
    ensures TrimUri(uri) == uri
  {
    EraseNothing(uri, "http://", '/');
    EraseNothing(uri, "HTTP://", '/');
    IndexOfIs(uri, '?', 0, |uri|);
    IndexOfIs(uri, '/', 0, |uri|);
    assert uri[..|uri|] == uri;
  }

  lemma {:induction false} EraseBehind(s: string, t: string, p: string)
    requires p != "" && (forall i :: 0 <= i < |s| ==> !MatchesAt(s + t, p, i))
    ensures EraseAll(s + t, p) == s + EraseAll(t, p)
  {
    if s == "" {
      assert s + t == t;
    } else {
      assert (s + t)[1..] == s[1..] + t;
      forall i | 0 <= i < |s[1..]| ensures !MatchesAt(s[1..] + t, p, i) {
        assert !MatchesAt(s + t, p, i + 1);
        if i + |p| <= |s[1..] + t| {
          assert (s + t)[i + 1..i + 1 + |p|] == (s[1..] + t)[i..i + |p|];
        }
      }
      EraseBehind(s[1..], t, p);
      assert s == [s[0]] + s[1..];
    }
  }

  lemma {:induction false} MatchBefore(s: string, c: char, t: string, p: string)
    requires p != "" && c !in p
    ensures MatchesAt(s + [c] + t, p, 0) <==> MatchesAt(s, p, 0)
    ensures MatchesAt(s, p, 0) ==> |p| <= |s|
  {
    var whole := s + [c] + t;
    if |p| <= |s| {
      assert whole[0..|p|] == s[0..|p|];
    } else {
      NoMatchByChar(whole, p, 0, |s|);
    }
  }

  /** No match spans a character that the pattern does not have. */
  lemma {:induction false} EraseAround(s: string, c: char, t: string, p: string)
    requires p != "" && c !in p && c !in s
    ensures EraseAll(s + [c] + t, p) == EraseAll(s, p) + [c] + EraseAll(t, p) && c !in EraseAll(s, p)
  {
    var whole := s + [c] + t;
    MatchBefore(s, c, t, p);
    if s == "" {
      assert whole[1..] == t;
    } else {
      hide MatchesAt;
      if MatchesAt(s, p, 0) {
        assert whole[|p|..] == s[|p|..] + [c] + t;
        EraseAround(s[|p|..], c, t, p);
      } else {
        assert whole[1..] == s[1..] + [c] + t;
        EraseAround(s[1..], c, t, p);
      }
    }
  }

  /** The query is cut off, whatever it holds. */
  lemma {:induction false} TrimUriQuery(path: string, query: string)
    requires '?' !in path
    ensures TrimUri(path + "?" + query) == TrimUri(path)
  {
    var once := EraseAll(path, "http://");
    EraseAround(path, '?', query, "http://");
    EraseAround(once, '?', EraseAll(query, "http://"), "HTTP://");
    var kept, rest := EraseAll(once, "HTTP://"), EraseAll(EraseAll(query, "http://"), "HTTP://");
    IndexOfIs(kept + "?" + rest, '?', 0, |kept|);
    IndexOfIs(kept, '?', 0, |kept|);
    assert (kept + "?" + rest)[..|kept|] == kept == kept[..|kept|];
  }

  /** The slash behind s, with what follows it, completes the scheme marker p. */
  predicate MakesScheme(s: string, t: string, p: string) {
    |p| == 7 && |s| >= 5 && s[|s| - 5..] == p[..5] && "/" <= t
  }

  /** A scheme marker can only begin where its slashes fit. */
  lemma {:induction false} NoScheme(s: string, t: string, p: string)
    requires p == "http://" || p == "HTTP://"
    requires '/' !in s && !MakesScheme(s, t, p)
    ensures forall i :: 0 <= i <= |s| ==> !MatchesAt(s + "/" + t, p, i)
  {
    var whole, n := s + "/" + t, |s|;
    forall i | 0 <= i <= n ensures !MatchesAt(whole, p, i) {
      if i + 5 < n {
        NoMatchByChar(whole, p, i, 5);
      } else if n < i + 5 {
        NoMatchByChar(whole, p, i, n - i);
      } else {
        assert n == i + 5 ==> whole[i..n] == s[n - 5..] && (i + 7 <= |whole| ==> whole[i..n] == whole[i..i + 7][..5]);
        assert t != "" ==> t[0] == whole[n + 1];
      }
    }
  }

  /** Only the first segment of a path is kept, unless its slash belongs to a scheme marker. */
  lemma {:induction false} TrimUriSegment(segment: string, rest: string)
    requires segment != "" && '?' !in segment && '/' !in segment
    requires !MakesScheme(segment, rest, "http://") && !MakesScheme(segment, EraseAll(rest, "http://"), "HTTP://")
    ensures TrimUri(segment + "/" + rest) == segment
  {
    var s, once := segment + "/", EraseAll(rest, "http://");
    NoScheme(segment, rest, "http://");
    EraseBehind(s, rest, "http://");
    NoScheme(segment, once, "HTTP://");
    EraseBehind(s, once, "HTTP://");
    var u := s + EraseAll(once, "HTTP://");
    var cut := u[..IndexOf(u, '?', 0)];
    assert forall k :: 0 <= k <= |segment| ==> u[k] != '?';
    assert |cut| > |segment| && forall k :: 0 <= k < |segment| ==> cut[k] == segment[k];
    IndexOfIs(cut, '/', 0, |segment|);
    assert cut[..|segment|] == segment;
  }

  /** A scheme in front is dropped, in small or capital letters. */
  lemma {:induction false} TrimUriScheme(uri: string)
    ensures TrimUri("http://" + uri) == TrimUri(uri) && TrimUri("HTTP://" + uri) == TrimUri(uri)
  {
    EraseMatch("http://", uri);
    var once := EraseAll(uri, "http://");
    CapitalsKept(uri);
    EraseBehind("HTTP://", uri, "http://");
    EraseMatch("HTTP://", once);
  }

  lemma {:induction false} CapitalsKept(uri: string)
    ensures forall i :: 0 <= i < 7 ==> !MatchesAt("HTTP://" + uri, "http://", i)
  {
    forall i | 0 <= i < 7 ensures !MatchesAt("HTTP://" + uri, "http://", i) {
      NoMatchByChar("HTTP://" + uri, "http://", i, 0);
    }
  }

  // ---- whole blocks

  function AddHeader(f: Fields, h: Header): (g: Fields) {
    f.(headers := f.headers + [h], cmd := if h.name == "User-cmd" then h.value else f.cmd)
  }

  function AddHeaders(f: Fields, hs: seq<Header>): (g: Fields)
    ensures g.headers == f.headers + hs && g == f.(headers := g.headers, cmd := g.cmd)
    decreases |hs|
  {
    if hs == [] then f else AddHeaders(AddHeader(f, hs[0]), hs[1..])
  }

  /** The last User-cmd header is number k. */
  predicate LastCommand(hs: seq<Header>, k: nat) {
    k < |hs| && hs[k].name == "User-cmd" && forall j :: k < j < |hs| ==> hs[j].name != "User-cmd"
  }

  /** The last User-cmd header sets the command. */
  lemma {:induction false} LastCommandWins(f: Fields, hs: seq<Header>)
    ensures (forall k :: 0 <= k < |hs| ==> hs[k].name != "User-cmd") ==> AddHeaders(f, hs).cmd == f.cmd
    ensures forall k: nat :: LastCommand(hs, k) ==> AddHeaders(f, hs).cmd == hs[k].value
    decreases |hs|
  {
    if hs != [] {
      LastCommandWins(AddHeader(f, hs[0]), hs[1..]);
      assert forall k :: 0 < k < |hs| ==> hs[k] == hs[1..][k - 1];
      forall k: nat | 0 < k && LastCommand(hs, k) ensures LastCommand(hs[1..], k - 1) {
        assert forall j :: k - 1 < j < |hs[1..]| ==> hs[1..][j] == hs[j + 1];
      }
    }
  }

  /** A header line is neither blank nor a second request line. */
  lemma {:induction false} HeaderLineIsHeader(h: Header)
    requires IsCanonical(h)
    ensures var line := HeaderLine(h);
            line != CRLF && !(POST <= line) && IsPlain(line[..|line| - 2])
            && line[0] != '\r' && line == line[..|line| - 2] + CRLF
  {
    var line, n := HeaderLine(h), |h.name|;
    HeaderLineParts(h);
    assert line[..|line| - 2] == h.name + ": " + h.value;
    assert forall i :: 0 <= i < n ==> IsTokenChar(h.name[i]) && line[i] == h.name[i];
    assert IsPlain(h.name);
    var k := if n > 4 then 4 else n;
    assert line[k] != POST[k];
  }

  lemma {:induction false} SplitLine(s: string, at: nat, line: string, tail: string)
    requires at <= |s| && s[at..] == line + tail
    ensures at + |line| + |tail| == |s| && s[at..at + |line|] == line && s[at + |line|..] == tail
  {
    assert s[at..at + |line|] == s[at..][..|line|];
    assert s[at + |line|..] == s[at..][|line|..];
  }

  /** Reading rendered headers up to the end of the block. */
  lemma {:induction false} HeadersReadBack(f: Fields, text: string, at: nat, hs: seq<Header>)
    requires at <= |text| && text[at..] == HeaderText(hs) + CRLF && AllCanonical(hs)
    requires hs != [] ==> f.uri != ""
    ensures ReadLines(f, text, at, |text|) == BlockResult(AddHeaders(f, hs), true, |text|)
    decreases |hs|
  {
    hide MimeLine, StrStr, UriLine, IsPlain, HeaderLine, IsCanonical;
    if hs == [] {
      BlankLineFound(text, at);
    } else {
      var line, tail := HeaderLine(hs[0]), HeaderText(hs[1..]) + CRLF;
      assert text[at..] == line + tail;
      SplitLine(text, at, line, tail);
      HeaderLineIsHeader(hs[0]);
      LineFound(text, at, line[..|line| - 2]);
      MimeReadsBack(f, hs[0]);
      HeadersReadBack(AddHeader(f, hs[0]), text, at + |line|, hs[1..]);
    }
  }

  lemma {:induction false} BlankLineFound(text: string, at: nat)
    requires at <= |text| && text[at..] == CRLF
    ensures StrStr(text, CRLF, at) == Some(at) && |text| == at + 2
  {
    assert text[at..at + 2] == text[at..];
  }

  /** A line, header lines, the blank line and the text behind them. */
  function BlockText(line: string, hs: seq<Header>, rest: string): (t: string) {
    line + CRLF + HeaderText(hs) + CRLF + rest
  }

  lemma {:induction false} BlockTextNext(line: string, hs: seq<Header>, rest: string)
    requires hs != [] && IsCanonical(hs[0])
    ensures var next := HeaderLine(hs[0]);
            |next| >= 2 && BlockText(line, hs, rest) == (line + CRLF) + BlockText(next[..|next| - 2], hs[1..], rest)
            && IsPlain(next[..|next| - 2]) && BlockText(next[..|next| - 2], hs[1..], rest) != ""
            && next[0] == BlockText(next[..|next| - 2], hs[1..], rest)[0] != '\r'
  {
    hide IsPlain, HeaderLine, IsCanonical;
    HeaderLineIsHeader(hs[0]);
    HeaderTextLength(hs);
    var next, more := HeaderLine(hs[0]), BlockText(HeaderLine(hs[0])[..|HeaderLine(hs[0])| - 2], hs[1..], rest);
    assert more == next + (HeaderText(hs[1..]) + CRLF + rest);
  }

  lemma {:induction false} BlockTextLast(line: string, rest: string)
    ensures BlockText(line, [], rest) == (line + CRLF) + (CRLF + rest) == line + (HTTP_END + rest)
  {
    assert HTTP_END == CRLF + CRLF;
  }

  /** The first end marker is the one behind the last header line. */
  lemma {:induction false} MarkerFound(s: string, at: nat, line: string, hs: seq<Header>, rest: string)
    requires at <= |s| && s[at..] == BlockText(line, hs, rest) && IsPlain(line) && AllCanonical(hs)
    ensures StrStr(s, HTTP_END, at) == Some(at + |line| + |HeaderText(hs)|)
    decreases |hs|
  {
    hide StrStr, IsPlain, IsCanonical, BlockText, HeaderLine;
    if hs == [] {
      MarkerBehindLine(s, at, line, rest);
    } else {
      BlockTextNext(line, hs, rest);
      var next := HeaderLine(hs[0]);
      var more := next[..|next| - 2];
      MarkerNotInLine(s, at, line, BlockText(more, hs[1..], rest));
      MarkerFound(s, at + |line| + 2, more, hs[1..], rest);
      HeaderTextLength(hs);
    }
  }

  lemma {:induction false} HeaderTextLength(hs: seq<Header>)
    requires hs != []
    ensures |HeaderText(hs)| == |HeaderLine(hs[0])| + |HeaderText(hs[1..])| && |HeaderLine(hs[0])| >= 2
  {
  }

  lemma {:induction false} MarkerBehindLine(s: string, at: nat, line: string, rest: string)
    requires at <= |s| && s[at..] == BlockText(line, [], rest) && IsPlain(line)
    ensures StrStr(s, HTTP_END, at) == Some(at + |line|)
  {
    hide StrStr, IsPlain, BlockText;
    BlockTextLast(line, rest);
    SplitLine(s, at, line + CRLF, CRLF + rest);
    SplitLine(s, at, line, HTTP_END + rest);
    SplitLine(s, at + |line|, HTTP_END, rest);
    MarkerAfterLast(s, at, line);
  }

  lemma {:induction false} MarkerNotInLine(s: string, at: nat, line: string, tail: string)
    requires at <= |s| && s[at..] == (line + CRLF) + tail && IsPlain(line) && tail != "" && tail[0] != '\r'
    ensures at + |line| + 2 <= |s| && s[at + |line| + 2..] == tail
    ensures StrStr(s, HTTP_END, at) == StrStr(s, HTTP_END, at + |line| + 2)
  {
    hide StrStr, IsPlain;
    SplitLine(s, at, line + CRLF, tail);
    assert s[at + |line| + 2] == s[at + |line + CRLF|..][0];
    NoMarkerInLine(s, at, line);
  }

  lemma {:induction false} MarkerAfterLast(s: string, at: nat, line: string)
    requires at + |line| + 4 <= |s| && s[at..at + |line| + 2] == line + CRLF && IsPlain(line)
    requires MatchesAt(s, HTTP_END, at + |line|)
    ensures StrStr(s, HTTP_END, at) == Some(at + |line|)
  {
    hide StrStr, IsPlain;
    var e := at + |line|;
    LineFound(s, at, line);
    forall j | at <= j < e ensures !MatchesAt(s, HTTP_END, j) {
      NoMatchByChar(s, HTTP_END, j, 0);
    }
    FirstMatchIs(s, HTTP_END, at, e);
  }

  /** Print and parse: the lines of a rendered header block give its target and its headers, in order. */
  lemma {:induction false} HeadReadsBack(f: Fields, t: Target, hs: seq<Header>)
    requires t.Valid() && AllCanonical(hs)
    ensures var head := HeadText(t, hs);
            ReadLines(f, head, 0, |head|)
            == BlockResult(AddHeaders(f.(verb := f.verb + "POST", uri := TrimUri(t.uri)), hs), true, |head|)
  {
    hide UriLine, MimeLine, StrStr, IsPlain, AddHeaders, HeaderText, TrimUri, IsCanonical;
    var head, line := HeadText(t, hs), t.Line();
    UriReadsBack(f, t);
    TargetLineFound(t, hs);
    HeadersReadBack(f.(verb := f.verb + "POST", uri := TrimUri(t.uri)), head, |line|, hs);
  }

  lemma {:induction false} TargetLineFound(t: Target, hs: seq<Header>)
    requires t.Valid()
    ensures var head, line := HeadText(t, hs), t.Line();
            |line| >= 2 && line != CRLF && StrStr(head, CRLF, 0) == Some(|line| - 2)
            && |line| < |head| && head[0..|line|] == line && head[|line|..] == HeaderText(hs) + CRLF
  {
    hide StrStr, IsPlain, HeaderText;
    var head, line := HeadText(t, hs), t.Line();
    TargetLineIsPlain(t);
    assert head[0..] == line + (HeaderText(hs) + CRLF);
    SplitLine(head, 0, line, HeaderText(hs) + CRLF);
    LineFound(head, 0, line[..|line| - 2]);
  }

  lemma {:induction false} TargetLineIsPlain(t: Target)
    requires t.Valid()
    ensures var line := t.Line();
            IsPlain(line[..|line| - 2]) && line != CRLF && line == line[..|line| - 2] + CRLF
  {
    assert t.Line()[..|t.Line()| - 2] == "POST /" + t.uri + " " + t.version;
  }

  lemma {:induction false} HeadMarker(t: Target, hs: seq<Header>, rest: string)
    requires t.Valid() && AllCanonical(hs)
    ensures StrStr(HeadText(t, hs) + rest, HTTP_END, 0) == Some(|HeadText(t, hs)| - 4)
  {
    hide StrStr;
    var line := t.Line();
    TargetLineIsPlain(t);
    assert (HeadText(t, hs) + rest)[0..] == BlockText(line[..|line| - 2], hs, rest);
    MarkerFound(HeadText(t, hs) + rest, 0, line[..|line| - 2], hs, rest);
  }
}
