/** Percent-decoding of request paths, Handler::UrlDecode. */
module UrlCoding {
  import opened Options
  import opened CText

  // ---- std::istringstream >> std::hex >> int, on two characters

  function HexValue(c: char): (v: Option<nat>)
    ensures v.Some? ==> v.value < 16
  {
    if '0' <= c <= '9' then Some((c - '0') as nat)
    else if 'a' <= c <= 'f' then Some((c - 'a') as nat + 10)
    else if 'A' <= c <= 'F' then Some((c - 'A') as nat + 10)
    else None
  }

  /** Without leading white space: a sign or a first digit, then at most one more digit. A lone
      sign and a bare "0x" leave nothing to convert. */
  function HexNumber(s: string): (value: Option<int>)
    requires |s| <= 2
  {
    if s == "" then None
    else if |s| == 2 && (s[0] == '-' || s[0] == '+') then
      match HexValue(s[1])
      case None => None
      case Some(d) => Some(if s[0] == '-' then -(d as int) else d)
    else
      match HexValue(s[0])
      case None => None
      case Some(high) =>
        if |s| == 1 then Some(high)
        else if HexValue(s[1]).Some? then Some(16 * high + HexValue(s[1]).value)
        else if s[0] == '0' && (s[1] == 'x' || s[1] == 'X') then None
        else Some(high)
  }

  /** The value that the two characters behind a '%' stand for, leading white space skipped. */
  function HexField(s: string): (value: Option<int>)
    requires |s| == 2
  {
    HexNumber(TrimLeft(s))
  }

  /** static_cast<char>. */
  function ToChar(value: int): (c: char)
    ensures c as int < 0x100
  {
    (value % 0x100) as char
  }

  // ---- decoding

  function DecodeFrom(s: string, i: nat): (r: Option<string>)
    requires i <= |s|
    ensures r.Some? ==> |r.value| <= |s| - i
    decreases |s| - i
  {
    if i == |s| then Some("")
    else if s[i] == '%' then
      if i + 3 > |s| then None
      else
        match HexField(s[i + 1..i + 3])
        case None => None
        case Some(v) => Prepend(ToChar(v), DecodeFrom(s, i + 3))
    else Prepend(if s[i] == '+' then ' ' else s[i], DecodeFrom(s, i + 1))
  }

  function Prepend(c: char, r: Option<string>): (result: Option<string>) {
    if r.None? then None else Some([c] + r.value)
  }

  function Decode(s: string): (r: Option<string>)
    ensures r.Some? ==> |r.value| <= |s|
  {
    DecodeFrom(s, 0)
  }

  /** The text decoded so far, followed by what the rest decodes to. */
  function Join(out: string, r: Option<string>): (result: Option<string>) {
    if r.None? then None else Some(out + r.value)
  }

  lemma {:induction false} JoinEmpty(r: Option<string>)
    ensures Join("", r) == r
  {
    assert r.Some? ==> "" + r.value == r.value;
  }

  /** One pass of the loop moves one character from the rest to the text decoded so far. */
  lemma {:induction false} DecodeStep(s: string, i: nat, out: string)
    requires i < |s|
    ensures s[i] != '%' ==>
              Join(out, DecodeFrom(s, i)) == Join(out + [if s[i] == '+' then ' ' else s[i]], DecodeFrom(s, i + 1))
    ensures s[i] == '%' && (i + 3 > |s| || HexField(s[i + 1..i + 3]).None?) ==> DecodeFrom(s, i).None?
    ensures s[i] == '%' && i + 3 <= |s| && HexField(s[i + 1..i + 3]).Some? ==>
              Join(out, DecodeFrom(s, i))
              == Join(out + [ToChar(HexField(s[i + 1..i + 3]).value)], DecodeFrom(s, i + 3))
  {
    hide HexField, ToChar;
    PrependJoin(out, if s[i] == '+' then ' ' else s[i], DecodeFrom(s, i + 1));
    if s[i] == '%' && i + 3 <= |s| && HexField(s[i + 1..i + 3]).Some? {
      PrependJoin(out, ToChar(HexField(s[i + 1..i + 3]).value), DecodeFrom(s, i + 3));
    }
  }

  lemma {:induction false} PrependJoin(out: string, c: char, r: Option<string>)
    ensures Join(out, Prepend(c, r)) == Join(out + [c], r)
  {
    assert r.Some? ==> out + ([c] + r.value) == out + [c] + r.value;
  }

  lemma {:induction false} DecodeEnd(s: string, out: string)
    ensures Join(out, DecodeFrom(s, |s|)) == Some(out)
  {
    assert out + "" == out;
  }

  /** UrlDecode. */
  method UrlDecode(input: string) returns (ok: bool, out: string)
    ensures ok == Decode(input).Some? && (ok ==> out == Decode(input).value)
  {
    hide HexField, DecodeFrom;
    out := "";
    var i := 0;
    JoinEmpty(Decode(input));
    while i < |input|
      invariant i <= |input|
      invariant Decode(input) == Join(out, DecodeFrom(input, i))
      decreases |input| - i
    {
      DecodeStep(input, i, out);
      if input[i] == '%' {
        if i + 3 <= |input| {
          var value := HexField(input[i + 1..i + 3]);
          if value.Some? {
            out := out + [ToChar(value.value)];
            i := i + 2;
          } else {
            return false, out;
          }
        } else {
          return false, out;
        }
      } else if input[i] == '+' {
        out := out + [' '];
      } else {
        out := out + [input[i]];
      }
      i := i + 1;
    }
    DecodeEnd(input, out);
    ok := true;
  }

  // ---- what is decoded to what

  /** The piece p of an encoded text stands for the byte c. */
  predicate StandsFor(p: string, c: char) {
    (p == [c] && c != '%' && c != '+') ||
    (p == "+" && c == ' ') ||
    (|p| == 3 && p[0] == '%' && HexField(p[1..]).Some? && c == ToChar(HexField(p[1..]).value))
  }

  function Flatten(pieces: seq<string>): (t: string) {
    if pieces == [] then "" else pieces[0] + Flatten(pieces[1..])
  }

  predicate Spells(pieces: seq<string>, text: string) {
    |pieces| == |text| && forall k :: 0 <= k < |text| ==> StandsFor(pieces[k], text[k])
  }

  /** Decoding succeeds, and with which text, exactly for the concatenations of pieces. */
  lemma {:induction false} DecodesExactly(s: string, text: string)
    ensures Decode(s) == Some(text) <==> exists pieces :: Spells(pieces, text) && Flatten(pieces) == s
  {
    if Decode(s) == Some(text) {
      var pieces := Pieces(s, 0, text);
      assert s[0..] == s;
    }
    forall pieces | Spells(pieces, text) && Flatten(pieces) == s ensures Decode(s) == Some(text) {
      assert s[0..] == s;
      DecodesPieces(s, 0, pieces, text);
    }
  }

  lemma {:induction false} DecodesPieces(s: string, i: nat, pieces: seq<string>, text: string)
    requires i <= |s| && s[i..] == Flatten(pieces) && Spells(pieces, text)
    ensures DecodeFrom(s, i) == Some(text)
    decreases |text|
  {
    hide HexField;
    if text != "" {
      var p := pieces[0];
      assert StandsFor(p, text[0]);
      assert s[i..][..|p|] == p && s[i..][|p|..] == Flatten(pieces[1..]);
      assert s[i] == s[i..][0] == p[0];
      assert |p| == 3 ==> s[i + 1..i + 3] == s[i..][1..3] == p[1..];
      assert s[i + |p|..] == s[i..][|p|..];
      DecodesPieces(s, i + |p|, pieces[1..], text[1..]);
      assert text == [text[0]] + text[1..];
    }
  }

  lemma {:induction false} Pieces(s: string, i: nat, text: string) returns (pieces: seq<string>)
    requires i <= |s| && DecodeFrom(s, i) == Some(text)
    ensures Spells(pieces, text) && Flatten(pieces) == s[i..]
    decreases |s| - i
  {
    hide HexField;
    if i == |s| {
      pieces := [];
    } else {
      var n := if s[i] == '%' then 3 else 1;
      var p := s[i..i + n];
      var rest := Pieces(s, i + n, text[1..]);
      pieces := [p] + rest;
      assert n == 3 ==> p[1..] == s[i + 1..i + 3];
      assert pieces[1..] == rest && s[i..] == p + s[i + n..];
    }
  }

  /** An escape that is cut off, or that begins with anything but white space, a sign or a hexadecimal
      digit, is refused wherever it stands. */
  lemma {:induction false} EscapeRefused(s: string, k: nat)
    requires k < |s| && s[k] == '%' && '%' !in s[..k]
    requires k + 3 > |s| || !(s[k + 1] in " \t\n\r+-0123456789abcdefABCDEF" || s[k + 1] as int in {11, 12})
    ensures Decode(s).None?
  {
    EscapeRefusedFrom(s, 0, k);
  }

  lemma {:induction false} EscapeRefusedFrom(s: string, i: nat, k: nat)
    requires i <= k < |s| && s[k] == '%' && '%' !in s[..k]
    requires k + 3 > |s| || !(s[k + 1] in " \t\n\r+-0123456789abcdefABCDEF" || s[k + 1] as int in {11, 12})
    ensures DecodeFrom(s, i).None?
    decreases k - i
  {
    if i < k {
      assert s[i] == s[..k][i];
      EscapeRefusedFrom(s, i + 1, k);
    } else if k + 3 <= |s| {
      OddEscape(s[k + 1..k + 3]);
    }
  }

  lemma {:induction false} OddEscape(p: string)
    requires |p| == 2 && !(p[0] in " \t\n\r+-0123456789abcdefABCDEF" || p[0] as int in {11, 12})
    ensures HexField(p).None?
  {
    OddDigit(p[0]);
    assert TrimLeft(p) == p;
  }

  lemma {:induction false} OddDigit(c: char)
    requires !(c in " \t\n\r+-0123456789abcdefABCDEF" || c as int in {11, 12})
    ensures HexValue(c).None? && !IsSpace(c) && c != '+' && c != '-'
  {
  }

  // ---- encoding as section 2.1 of RFC 3986 has it

  function UpperHexDigit(n: nat): (d: char)
    requires n < 16
  {
    if n < 10 then '0' + n as char else 'A' + (n - 10) as char
  }

  /** The byte may be escaped, or left as it is unless it is '%' or '+', or be a '+' for a space. */
  datatype Choice = Plain | PlusSign | Escaped(lowerHigh: bool, lowerLow: bool)

  function HexCase(n: nat, lower: bool): (d: char)
    requires n < 16
  {
    if lower then ToLower(UpperHexDigit(n)) else UpperHexDigit(n)
  }

  predicate Allowed(c: char, choice: Choice) {
    match choice
    case Plain => c != '%' && c != '+'
    case PlusSign => c == ' '
    case Escaped(_, _) => c as int < 0x100
  }

  function EncodeChar(c: char, choice: Choice): (t: string)
    requires Allowed(c, choice)
  {
    match choice
    case Plain => [c]
    case PlusSign => "+"
    case Escaped(h, l) => ['%', HexCase(c as nat / 16, h), HexCase(c as nat % 16, l)]
  }

  function Encode(text: string, choices: seq<Choice>): (t: string)
    requires |choices| == |text| && forall k :: 0 <= k < |text| ==> Allowed(text[k], choices[k])
  {
    if text == "" then "" else EncodeChar(text[0], choices[0]) + Encode(text[1..], choices[1..])
  }

  lemma {:induction false} EscapeStandsFor(c: char, choice: Choice)
    requires Allowed(c, choice)
    ensures StandsFor(EncodeChar(c, choice), c)
  {
    if choice.Escaped? {
      var p := EncodeChar(c, choice);
      HexDigitValue(c as nat / 16, choice.lowerHigh);
      HexDigitValue(c as nat % 16, choice.lowerLow);
      assert p[1..] == [p[1], p[2]];
      assert TrimLeft(p[1..]) == p[1..];
    }
  }

  lemma {:induction false} HexDigitValue(n: nat, lower: bool)
    requires n < 16
    ensures HexValue(HexCase(n, lower)) == Some(n) && !IsSpace(HexCase(n, lower))
    ensures HexCase(n, lower) != '-' && HexCase(n, lower) != '+'
  {
  }

  /** Round trip: whichever bytes were escaped, and in whichever case, the original text comes back. */
  lemma {:induction false} DecodeEncode(text: string, choices: seq<Choice>)
    requires |choices| == |text| && forall k :: 0 <= k < |text| ==> Allowed(text[k], choices[k])
    ensures Decode(Encode(text, choices)) == Some(text)
  {
    var s := Encode(text, choices);
    var pieces := seq(|text|, k requires 0 <= k < |text| => EncodeChar(text[k], choices[k]));
    forall k | 0 <= k < |text| ensures StandsFor(pieces[k], text[k]) {
      EscapeStandsFor(text[k], choices[k]);
    }
    EncodeIsFlatten(text, choices, pieces);
    assert s[0..] == s;
    DecodesPieces(s, 0, pieces, text);
  }

  lemma {:induction false} EncodeIsFlatten(text: string, choices: seq<Choice>, pieces: seq<string>)
    requires |choices| == |text| == |pieces| && forall k :: 0 <= k < |text| ==> Allowed(text[k], choices[k])
    requires forall k :: 0 <= k < |text| ==> pieces[k] == EncodeChar(text[k], choices[k])
    ensures Encode(text, choices) == Flatten(pieces)
  {
    if text != "" {
      EncodeIsFlatten(text[1..], choices[1..], pieces[1..]);
    }
  }
}
